/** The rollover classification is a partition of both flyers and a maximum content-preserving matching. */
module RolloverMatching {
  import opened Sorting
  import opened PageNumbers
  import opened Rollover

  function OldOf(p: Pair): nat { p.oldPage }
  function NewOf(p: Pair): nat { p.newPage }
  function Swapped(p: Pair): Pair { Pair(p.newPage, p.oldPage, p.digest) }

  // ----- the digests examined -----

  lemma {:induction false} DistinctFacts(s: seq<string>)
    ensures NoDup(Distinct(s)) && forall d :: d in Distinct(s) <==> d in s
  {
    if s != [] {
      DistinctFacts(s[..|s| - 1]);
      assert forall d :: d in s <==> d in s[..|s| - 1] || d == s[|s| - 1];
    }
  }

  lemma DigestsFacts(before: seq<string>, after: seq<string>)
    ensures NoDup(Digests(before, after))
    ensures forall d :: d in Digests(before, after) <==> d in before || d in after
  {
    DistinctFacts(before + after);
    SortMembers(Distinct(before + after), StrLe);
    NoDupPermuted(Distinct(before + after), Digests(before, after));
  }

  // ----- sums over digests -----

  lemma {:induction false} FlatMembers<T>(ds: seq<string>, f: string -> seq<T>, x: T)
    ensures x in Flat(ds, f) <==> exists i | 0 <= i < |ds| :: x in f(ds[i])
  {
    if ds != [] {
      var rest := ds[..|ds| - 1];
      FlatMembers(rest, f, x);
      if i :| 0 <= i < |rest| && x in f(rest[i]) { assert x in f(ds[i]); }
      if i :| 0 <= i < |ds| && x in f(ds[i]) { if i < |rest| { assert x in f(rest[i]); } }
    }
  }

  lemma {:induction false} FlatMap<S, T>(ds: seq<string>, f: string -> seq<S>, g: S -> T, h: string -> seq<T>)
    requires forall d :: h(d) == Map(f(d), g)
    ensures Map(Flat(ds, f), g) == Flat(ds, h)
  {
    if ds != [] {
      var rest, d := ds[..|ds| - 1], ds[|ds| - 1];
      FlatMap(rest, f, g, h);
      assert Map(Flat(rest, f) + f(d), g) == Map(Flat(rest, f), g) + Map(f(d), g);
    }
  }

  lemma {:induction false} FlatSum3<T>(ds: seq<string>, whole: string -> seq<T>, a: string -> seq<T>,
                                       b: string -> seq<T>, c: string -> seq<T>)
    requires forall d :: multiset(whole(d)) == multiset(a(d)) + multiset(b(d)) + multiset(c(d))
    ensures multiset(Flat(ds, whole)) == multiset(Flat(ds, a)) + multiset(Flat(ds, b)) + multiset(Flat(ds, c))
  {
    if ds != [] { FlatSum3(ds[..|ds| - 1], whole, a, b, c); }
  }

  function PositionsFn(pages: seq<string>): string -> seq<nat> {
    d => Positions(pages, d)
  }

  function AllPositions(ds: seq<string>, pages: seq<string>): seq<nat> {
    Flat(ds, PositionsFn(pages))
  }

  lemma PositionsAppend(pages: seq<string>, x: string, d: string)
    ensures Positions(pages + [x], d) == if x == d then Positions(pages, d) + [|pages| + 1] else Positions(pages, d)
  {
    PositionsStep(pages + [x], |pages|);
    assert (pages + [x])[..|pages|] == pages && (pages + [x])[..|pages| + 1] == pages + [x];
  }

  lemma AllPositionsLast(ds: seq<string>, pages: seq<string>)
    ensures AllPositions([], pages) == []
    ensures ds != [] ==> AllPositions(ds, pages) == AllPositions(ds[..|ds| - 1], pages) + Positions(pages, ds[|ds| - 1])
  {
  }

  lemma {:induction false} AbsentDigest(ds: seq<string>, pages: seq<string>, x: string)
    requires x !in ds
    ensures AllPositions(ds, pages + [x]) == AllPositions(ds, pages)
  {
    hide Positions, AllPositions;
    AllPositionsLast(ds, pages);
    AllPositionsLast(ds, pages + [x]);
    if ds != [] {
      AbsentDigest(ds[..|ds| - 1], pages, x);
      PositionsAppend(pages, x, ds[|ds| - 1]);
    }
  }

  /** A new last page is at its own digest and at no other. */
  lemma {:induction false} PresentDigest(ds: seq<string>, pages: seq<string>, x: string)
    requires NoDup(ds) && x in ds
    ensures multiset(AllPositions(ds, pages + [x])) == multiset(AllPositions(ds, pages)) + multiset([|pages| + 1])
  {
    hide Positions, AllPositions;
    var rest, d := ds[..|ds| - 1], ds[|ds| - 1];
    assert ds == rest + [d];
    AllPositionsLast(ds, pages);
    AllPositionsLast(ds, pages + [x]);
    PositionsAppend(pages, x, d);
    if d == x {
      AbsentDigest(rest, pages, x);
    } else {
      PresentDigest(rest, pages, x);
    }
  }

  lemma {:induction false} NoPagesNoPositions(ds: seq<string>)
    ensures AllPositions(ds, []) == []
  {
    if ds != [] { NoPagesNoPositions(ds[..|ds| - 1]); }
  }

  /** Each page is at exactly one digest. */
  lemma {:induction false} PositionsCoverPages(ds: seq<string>, pages: seq<string>)
    requires NoDup(ds) && forall d | d in pages :: d in ds
    ensures multiset(AllPositions(ds, pages)) == multiset(Pages(|pages|))
  {
    hide Pages, AllPositions;
    if pages == [] {
      NoPagesNoPositions(ds);
      PagesGrow(0);
    } else {
      var n := |pages| - 1;
      var front, x := pages[..n], pages[n];
      assert front + [x] == pages;
      PositionsCoverPages(ds, front);
      PresentDigest(ds, front, x);
      PagesGrow(n);
    }
  }

  // ----- partition -----

  function SameOldFn(before: seq<string>, after: seq<string>): string -> seq<nat> {
    d => Map(SameOf(before, after, d), OldOf)
  }

  function MovedOldFn(before: seq<string>, after: seq<string>): string -> seq<nat> {
    d => Map(MovedOf(before, after, d), OldOf)
  }

  function SameNewFn(before: seq<string>, after: seq<string>): string -> seq<nat> {
    d => Map(SameOf(before, after, d), NewOf)
  }

  function MovedNewFn(before: seq<string>, after: seq<string>): string -> seq<nat> {
    d => Map(MovedOf(before, after, d), NewOf)
  }

  lemma MultisetPrefix<T>(s: seq<T>, k: nat)
    requires k <= |s|
    ensures multiset(s) == multiset(s[..k]) + multiset(s[k..])
  {
    assert s == s[..k] + s[k..];
  }

  lemma KeepCommutes(a: seq<nat>, b: seq<nat>)
    requires Increasing(a) && Increasing(b)
    ensures Keep(a, b) == Keep(b, a)
  {
    KeepMembers(a, b);
    KeepMembers(b, a);
    KeepIncreasing(a, b);
    KeepIncreasing(b, a);
    IncreasingUnique(Keep(a, b), Keep(b, a));
  }

  lemma DigestPartition(before: seq<string>, after: seq<string>, d: string)
    ensures multiset(Positions(before, d))
         == multiset(Map(SameOf(before, after, d), OldOf)) + multiset(Map(MovedOf(before, after, d), OldOf))
            + multiset(OldOnlyOf(before, after, d))
    ensures multiset(Positions(after, d))
         == multiset(Map(SameOf(before, after, d), NewOf)) + multiset(Map(MovedOf(before, after, d), NewOf))
            + multiset(NewOnlyOf(before, after, d))
  {
    hide Positions, Keep, Drop;
    var o, n := Positions(before, d), Positions(after, d);
    var k := Paired(before, after, d);
    PositionsAre(before, d);
    PositionsAre(after, d);
    KeepCommutes(o, n);
    KeepDropMultiset(o, n);
    KeepDropMultiset(n, o);
    MultisetPrefix(OldLeft(before, after, d), k);
    MultisetPrefix(NewLeft(before, after, d), k);
    assert Map(SameOf(before, after, d), OldOf) == Keep(o, n);
    assert Map(SameOf(before, after, d), NewOf) == Keep(o, n);
    assert Map(MovedOf(before, after, d), OldOf) == OldLeft(before, after, d)[..k];
    assert Map(MovedOf(before, after, d), NewOf) == NewLeft(before, after, d)[..k];
  }

  /** Old pages and new pages are each split exactly into same-position, moved and only pages: every page
      number occurs once, in one of the three. */
  lemma ClassificationPartitions(before: seq<string>, after: seq<string>)
    ensures var r := Classify(before, after);
            && multiset(Map(r.same, OldOf)) + multiset(Map(r.moved, OldOf))
               + multiset(r.oldOnly) == multiset(Pages(|before|))
            && multiset(Map(r.same, NewOf)) + multiset(Map(r.moved, NewOf))
               + multiset(r.newOnly) == multiset(Pages(|after|))
  {
    hide Digests, SameOf, MovedOf, OldOnlyOf, NewOnlyOf, Positions, Pages;
    var r, ds := Classify(before, after), Digests(before, after);
    var same, moved := Flat(ds, SameFn(before, after)), Flat(ds, MovedFn(before, after));
    DigestsFacts(before, after);
    forall d: string ensures
        && multiset(PositionsFn(before)(d)) == multiset(SameOldFn(before, after)(d))
           + multiset(MovedOldFn(before, after)(d)) + multiset(OldOnlyFn(before, after)(d))
        && multiset(PositionsFn(after)(d)) == multiset(SameNewFn(before, after)(d))
           + multiset(MovedNewFn(before, after)(d)) + multiset(NewOnlyFn(before, after)(d)) {
      DigestPartition(before, after, d);
    }
    FlatSum3(ds, PositionsFn(before), SameOldFn(before, after), MovedOldFn(before, after), OldOnlyFn(before, after));
    FlatSum3(ds, PositionsFn(after), SameNewFn(before, after), MovedNewFn(before, after), NewOnlyFn(before, after));
    FlatMap(ds, SameFn(before, after), OldOf, SameOldFn(before, after));
    FlatMap(ds, MovedFn(before, after), OldOf, MovedOldFn(before, after));
    FlatMap(ds, SameFn(before, after), NewOf, SameNewFn(before, after));
    FlatMap(ds, MovedFn(before, after), NewOf, MovedNewFn(before, after));
    MapPermuted(r.same, same, OldOf);
    MapPermuted(r.moved, moved, OldOf);
    MapPermuted(r.same, same, NewOf);
    MapPermuted(r.moved, moved, NewOf);
    PositionsCoverPages(ds, before);
    PositionsCoverPages(ds, after);
  }

  // ----- what the two kinds of match are -----

  lemma GroupPairs(before: seq<string>, after: seq<string>, d: string, p: Pair)
    ensures p in SameOf(before, after, d)
        <==> p.digest == d && p.oldPage == p.newPage && p.oldPage in Positions(before, d)
             && p.oldPage in Positions(after, d)
    ensures p in MovedOf(before, after, d)
        ==> p.digest == d && p.oldPage != p.newPage && p.oldPage in Positions(before, d)
            && p.newPage in Positions(after, d)
  {
    hide Positions, Keep, Drop;
    var o, n := Positions(before, d), Positions(after, d);
    KeepMembers(o, n);
    KeepMembers(n, o);
    var common := Keep(o, n);
    if p.digest == d && p.oldPage == p.newPage && p.oldPage in common {
      var i := IndexOf(common, p.oldPage);
      assert SameOf(before, after, d)[i] == p;
    }
    if p in MovedOf(before, after, d) {
      var i :| 0 <= i < |MovedOf(before, after, d)| && MovedOf(before, after, d)[i] == p;
      assert p.oldPage in OldLeft(before, after, d) && p.newPage in NewLeft(before, after, d);
    }
  }

  /** Same-position matches are every index with equal digests and nothing else; moved pairs have equal
      digests at different positions. */
  lemma MatchesAreExact(before: seq<string>, after: seq<string>, p: Pair)
    ensures var r := Classify(before, after);
            && (p in r.same <==> p.oldPage == p.newPage && 1 <= p.oldPage <= Min(|before|, |after|)
                                 && before[p.oldPage - 1] == after[p.oldPage - 1] == p.digest)
            && (p in r.moved ==> p.oldPage != p.newPage && 1 <= p.oldPage <= |before| && 1 <= p.newPage <= |after|
                                 && before[p.oldPage - 1] == after[p.newPage - 1] == p.digest)
  {
    hide SameFn, MovedFn, Digests, Sort, Flat, IsSame, IsMoved;
    var ds := Digests(before, after);
    DigestsFacts(before, after);
    SortMembers(Flat(ds, SameFn(before, after)), OldPageLe);
    SortMembers(Flat(ds, MovedFn(before, after)), PairLe);
    FlatMembers(ds, SameFn(before, after), p);
    FlatMembers(ds, MovedFn(before, after), p);
    forall d: string
      ensures (p in SameFn(before, after)(d) <==> IsSame(before, after, d, p))
              && (p in MovedFn(before, after)(d) ==> IsMoved(before, after, d, p))
    {
      GroupContents(before, after, d, p);
    }
    SameIsPresent(before, after, p);
    if IsSame(before, after, p.digest, p) {
      var i := IndexOf(ds, p.digest);
      assert p in SameFn(before, after)(ds[i]);
    }
  }

  lemma GroupContents(before: seq<string>, after: seq<string>, d: string, p: Pair)
    ensures p in SameFn(before, after)(d) <==> IsSame(before, after, d, p)
    ensures p in MovedFn(before, after)(d) ==> IsMoved(before, after, d, p)
  {
    hide Positions, SameOf, MovedOf;
    GroupPairs(before, after, d, p);
    PositionsAre(before, d);
    PositionsAre(after, d);
  }

  lemma SameIsPresent(before: seq<string>, after: seq<string>, p: Pair)
    ensures (exists d: string :: IsSame(before, after, d, p)) <==> IsSame(before, after, p.digest, p)
    ensures (exists d: string :: IsMoved(before, after, d, p)) <==> IsMoved(before, after, p.digest, p)
    ensures IsSame(before, after, p.digest, p) ==> p.digest in before
    ensures IsSame(before, after, p.digest, p) <==>
        p.oldPage == p.newPage && 1 <= p.oldPage <= Min(|before|, |after|)
          && before[p.oldPage - 1] == after[p.oldPage - 1] == p.digest
    ensures IsMoved(before, after, p.digest, p) <==>
        p.oldPage != p.newPage && 1 <= p.oldPage <= |before| && 1 <= p.newPage <= |after|
          && before[p.oldPage - 1] == after[p.newPage - 1] == p.digest
  {
  }

  ghost predicate IsSame(before: seq<string>, after: seq<string>, d: string, p: Pair) {
    && p.digest == d && p.oldPage == p.newPage
    && 1 <= p.oldPage <= Min(|before|, |after|) && before[p.oldPage - 1] == after[p.oldPage - 1] == d
  }

  ghost predicate IsMoved(before: seq<string>, after: seq<string>, d: string, p: Pair) {
    && p.digest == d && p.oldPage != p.newPage
    && 1 <= p.oldPage <= |before| && 1 <= p.newPage <= |after| && before[p.oldPage - 1] == after[p.newPage - 1] == d
  }

  // ----- maximality -----

  function MinFn(before: seq<string>, after: seq<string>, ds: seq<string>): nat {
    if ds == [] then 0 else
      MinFn(before, after, ds[..|ds| - 1]) + Min(multiset(before)[ds[|ds| - 1]], multiset(after)[ds[|ds| - 1]])
  }

  lemma {:induction false} PositionsCount(pages: seq<string>, d: string)
    ensures |Positions(pages, d)| == multiset(pages)[d]
  {
    if pages != [] {
      var n := |pages| - 1;
      PositionsCount(pages[..n], d);
      assert pages == pages[..n] + [pages[n]];
    }
  }

  lemma GroupMatched(before: seq<string>, after: seq<string>, d: string)
    ensures |SameOf(before, after, d)| + |MovedOf(before, after, d)| == Min(multiset(before)[d], multiset(after)[d])
  {
    hide Positions, Keep, Drop;
    var o, n := Positions(before, d), Positions(after, d);
    PositionsCount(before, d);
    PositionsCount(after, d);
    PositionsAre(before, d);
    PositionsAre(after, d);
    KeepCommutes(o, n);
    assert |Keep(o, n)| + |Drop(o, n)| == |o| && |Keep(n, o)| + |Drop(n, o)| == |n|;
  }

  lemma {:induction false} MatchedIsMinSum(before: seq<string>, after: seq<string>, ds: seq<string>)
    ensures |Flat(ds, SameFn(before, after))| + |Flat(ds, MovedFn(before, after))| == MinFn(before, after, ds)
  {
    hide SameOf, MovedOf;
    if ds != [] {
      MatchedIsMinSum(before, after, ds[..|ds| - 1]);
      GroupMatched(before, after, ds[|ds| - 1]);
    }
  }

  lemma {:induction false} MinSumIsIntersection(before: seq<string>, after: seq<string>, ds: seq<string>,
                                                m: multiset<string>)
    requires NoDup(ds) && forall d | d in m :: d in ds
    requires forall d | d in ds :: m[d] == Min(multiset(before)[d], multiset(after)[d])
    ensures MinFn(before, after, ds) == |m|
  {
    if ds == [] {
      assert m == multiset{};
    } else {
      var rest, d := ds[..|ds| - 1], ds[|ds| - 1];
      assert ds == rest + [d] && d !in rest;
      var m' := m[d := 0];
      assert |m| == |m'| + m[d];
      MinSumIsIntersection(before, after, rest, m');
    }
  }

  /** The number of matched pages is the size of the multiset intersection of the two contents. */
  lemma MatchedIsIntersection(before: seq<string>, after: seq<string>)
    ensures Classify(before, after).matched == |multiset(before) * multiset(after)|
    ensures Classify(before, after).matched == |Classify(before, after).same| + |Classify(before, after).moved|
  {
    hide Digests, SameOf, MovedOf;
    var ds, m := Digests(before, after), multiset(before) * multiset(after);
    DigestsFacts(before, after);
    MatchedIsMinSum(before, after, ds);
    forall d | d in m ensures d in ds { assert d in multiset(before); assert d in before; }
    MinSumIsIntersection(before, after, ds, m);
  }

  /** A content-preserving partial injection: distinct old indices sent to distinct new indices of equal content. */
  ghost predicate IsPartialInjection(ps: seq<(nat, nat)>, before: seq<string>, after: seq<string>) {
    && (forall k | 0 <= k < |ps| :: ps[k].0 < |before| && ps[k].1 < |after| && before[ps[k].0] == after[ps[k].1])
    && (forall k, l | 0 <= k < l < |ps| :: ps[k].0 != ps[l].0 && ps[k].1 != ps[l].1)
  }

  /** Contents read at pairwise different indices form a sub-multiset. */
  lemma {:induction false} PickedIsSubset(s: seq<string>, idx: seq<nat>)
    requires (forall k | 0 <= k < |idx| :: idx[k] < |s|) && NoDup(idx)
    ensures multiset(seq(|idx|, k requires 0 <= k < |idx| => s[idx[k]])) <= multiset(s)
    decreases |s|
  {
    var picked := seq(|idx|, k requires 0 <= k < |idx| => s[idx[k]]);
    if idx == [] {
      assert picked == [];
    } else {
      assert idx[0] < |s|;
      var n := |s| - 1;
      assert s == s[..n] + [s[n]];
      if k :| 0 <= k < |idx| && idx[k] == n {
        var idx' := Without(idx, k);
        forall i | 0 <= i < |idx'| ensures idx'[i] < n { NotLast(idx, k, i, n); }
        WithoutNoDup(idx, k);
        PickedIsSubset(s[..n], idx');
        assert Without(picked, k) == seq(|idx'|, i requires 0 <= i < |idx'| => s[..n][idx'[i]]);
      } else {
        assert picked == seq(|idx|, i requires 0 <= i < |idx| => s[..n][idx[i]]);
        PickedIsSubset(s[..n], idx);
      }
    }
  }

  lemma NotLast(idx: seq<nat>, k: nat, i: nat, n: nat)
    requires NoDup(idx) && k < |idx| && idx[k] == n && i < |idx| - 1
    requires forall j | 0 <= j < |idx| :: idx[j] <= n
    ensures Without(idx, k)[i] < n
  {
    if i < k { assert idx[i] != idx[k]; } else { assert idx[k] != idx[i + 1]; }
  }

  lemma WithoutNoDup(idx: seq<nat>, k: nat)
    requires NoDup(idx) && k < |idx|
    ensures NoDup(Without(idx, k))
  {
    var w := Without(idx, k);
    forall i, j | 0 <= i < j < |w| ensures w[i] != w[j] {
      assert w[i] == idx[if i < k then i else i + 1] && w[j] == idx[if j < k then j else j + 1];
    }
  }

  /** No content-preserving matching of old pages to new pages is larger than the classifier's. */
  lemma MatchingIsMaximum(ps: seq<(nat, nat)>, before: seq<string>, after: seq<string>)
    requires IsPartialInjection(ps, before, after)
    ensures |ps| <= Classify(before, after).matched
  {
    var a := seq(|ps|, k requires 0 <= k < |ps| => ps[k].0);
    var b := seq(|ps|, k requires 0 <= k < |ps| => ps[k].1);
    var x := seq(|a|, k requires 0 <= k < |a| => before[a[k]]);
    var y := seq(|b|, k requires 0 <= k < |b| => after[b[k]]);
    PickedIsSubset(before, a);
    PickedIsSubset(after, b);
    assert x == y;
    assert multiset(x) <= multiset(before) * multiset(after);
    SubMultisetSize(multiset(x), multiset(before) * multiset(after));
    assert |multiset(x)| == |x| == |ps|;
    MatchedIsIntersection(before, after);
  }

  /** Manual review is asked for exactly when the two flyers differ as collections of page contents. */
  lemma ManualReviewIffContentsDiffer(before: seq<string>, after: seq<string>)
    ensures var r := Classify(before, after);
            (r.oldOnly != [] || r.newOnly != []) <==> multiset(before) != multiset(after)
  {
    var r := Classify(before, after);
    hide Classify, Pages;
    ClassificationPartitions(before, after);
    MatchedIsIntersection(before, after);
    var both := multiset(before) * multiset(after);
    assert |r.same| + |r.moved| + |r.oldOnly| == |before| by {
      assert |multiset(Map(r.same, OldOf)) + multiset(Map(r.moved, OldOf))
             + multiset(r.oldOnly)| == |multiset(Pages(|before|))|;
    }
    assert |r.same| + |r.moved| + |r.newOnly| == |after| by {
      assert |multiset(Map(r.same, NewOf)) + multiset(Map(r.moved, NewOf))
             + multiset(r.newOnly)| == |multiset(Pages(|after|))|;
    }
    SubMultisetSize(both, multiset(before));
    SubMultisetSize(both, multiset(after));
    assert |multiset(before)| == |before| && |multiset(after)| == |after|;
    if multiset(before) == multiset(after) { assert both == multiset(before); }
  }

  // ----- symmetry -----

  lemma SwapGroup(before: seq<string>, after: seq<string>, d: string)
    ensures SameOf(after, before, d) == SameOf(before, after, d)
    ensures MovedOf(after, before, d) == Map(MovedOf(before, after, d), Swapped)
    ensures OldOnlyOf(after, before, d) == NewOnlyOf(before, after, d)
  {
    hide Positions, Keep, Drop;
    PositionsAre(before, d);
    PositionsAre(after, d);
    KeepCommutes(Positions(before, d), Positions(after, d));
  }

  lemma {:induction false} FlatSame<T>(ds: seq<string>, f: string -> seq<T>, g: string -> seq<T>)
    requires forall d :: f(d) == g(d)
    ensures Flat(ds, f) == Flat(ds, g)
  {
    if ds != [] { FlatSame(ds[..|ds| - 1], f, g); }
  }

  lemma DigestsSymmetric(before: seq<string>, after: seq<string>)
    ensures Digests(before, after) == Digests(after, before)
  {
    var a, b := Distinct(before + after), Distinct(after + before);
    DistinctFacts(before + after);
    DistinctFacts(after + before);
    NoDupCount(a);
    NoDupCount(b);
    forall d ensures multiset(a)[d] == multiset(b)[d] {
      assert d in a <==> d in multiset(a);
      assert d in b <==> d in multiset(b);
    }
    StrLeIsPreorder();
    forall x, y | x in a && y in a && StrLe(x, y) && StrLe(y, x) ensures x == y { StrLeAntisymmetric(x, y); }
    SortDeterministic(a, b, StrLe);
  }

  /** Exchanging the two flyers exchanges the only lists, inverts the moved pairs and keeps everything else. */
  lemma SwapSymmetry(before: seq<string>, after: seq<string>)
    ensures var r, s := Classify(before, after), Classify(after, before);
            && s.same == r.same && s.matched == r.matched
            && s.oldOnly == r.newOnly && s.newOnly == r.oldOnly
            && multiset(s.moved) == multiset(Map(r.moved, Swapped))
  {
    hide Digests, SameOf, MovedOf, OldOnlyOf, NewOnlyOf;
    DigestsSymmetric(before, after);
    var ds := Digests(before, after);
    forall d: string ensures
        && SameFn(after, before)(d) == SameFn(before, after)(d)
        && MovedFn(after, before)(d) == Map(MovedFn(before, after)(d), Swapped)
        && OldOnlyFn(after, before)(d) == NewOnlyFn(before, after)(d)
        && NewOnlyFn(after, before)(d) == OldOnlyFn(before, after)(d) {
      SwapGroup(before, after, d);
      SwapGroup(after, before, d);
    }
    FlatSame(ds, SameFn(after, before), SameFn(before, after));
    FlatSame(ds, OldOnlyFn(after, before), NewOnlyFn(before, after));
    FlatSame(ds, NewOnlyFn(after, before), OldOnlyFn(before, after));
    FlatMap(ds, MovedFn(before, after), Swapped, MovedFn(after, before));
    MapPermuted(Classify(before, after).moved, Flat(ds, MovedFn(before, after)), Swapped);
  }
}
