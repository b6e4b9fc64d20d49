/** The lists of a rollover classification in order: which of several equal pages are paired, and the groups of
  * copies. */
module RolloverOrder {
  import opened Sorting
  import opened PageNumbers
  import opened Rollover
  import opened RolloverMatching

  lemma LeftInOrder(before: seq<string>, after: seq<string>, d: string)
    ensures Increasing(OldLeft(before, after, d)) && Increasing(NewLeft(before, after, d))
    ensures forall x | x in OldLeft(before, after, d) :: 1 <= x <= |before| && before[x - 1] == d
    ensures forall x | x in NewLeft(before, after, d) :: 1 <= x <= |after| && after[x - 1] == d
  {
    hide Positions, Drop;
    PositionsAre(before, d);
    PositionsAre(after, d);
    KeepIncreasing(Positions(before, d), Positions(after, d));
    KeepIncreasing(Positions(after, d), Positions(before, d));
    KeepMembers(Positions(before, d), Positions(after, d));
    KeepMembers(Positions(after, d), Positions(before, d));
  }

  /** Where a moved pair stands among the pages of its digest. */
  lemma MovedAt(before: seq<string>, after: seq<string>, p: Pair) returns (i: nat)
    requires p in Classify(before, after).moved
    ensures i < Paired(before, after, p.digest)
    ensures OldLeft(before, after, p.digest)[i] == p.oldPage && NewLeft(before, after, p.digest)[i] == p.newPage
  {
    hide Digests, Sort, Flat, OldLeft, NewLeft;
    var ds := Digests(before, after);
    SortMembers(Flat(ds, MovedFn(before, after)), PairLe);
    FlatMembers(ds, MovedFn(before, after), p);
    var n :| 0 <= n < |ds| && p in MovedFn(before, after)(ds[n]);
    i := IndexOf(MovedOf(before, after, ds[n]), p);
  }

  lemma OldOnlyAt(before: seq<string>, after: seq<string>, x: nat) returns (i: nat, d: string)
    requires x in Classify(before, after).oldOnly
    ensures 1 <= x <= |before| && before[x - 1] == d
    ensures Paired(before, after, d) <= i < |OldLeft(before, after, d)| && OldLeft(before, after, d)[i] == x
  {
    hide Digests, Sort, Flat, OldLeft, NewLeft;
    var ds := Digests(before, after);
    SortMembers(Flat(ds, OldOnlyFn(before, after)), NatLe);
    FlatMembers(ds, OldOnlyFn(before, after), x);
    var n :| 0 <= n < |ds| && x in OldOnlyFn(before, after)(ds[n]);
    d := ds[n];
    LeftInOrder(before, after, d);
    var k := IndexOf(OldOnlyOf(before, after, d), x);
    i := Paired(before, after, d) + k;
    assert OldLeft(before, after, d)[i] == x && x in OldLeft(before, after, d);
  }

  lemma NewOnlyAt(before: seq<string>, after: seq<string>, x: nat) returns (i: nat, d: string)
    requires x in Classify(before, after).newOnly
    ensures 1 <= x <= |after| && after[x - 1] == d
    ensures Paired(before, after, d) <= i < |NewLeft(before, after, d)| && NewLeft(before, after, d)[i] == x
  {
    hide Digests, Sort, Flat, OldLeft, NewLeft;
    var ds := Digests(before, after);
    SortMembers(Flat(ds, NewOnlyFn(before, after)), NatLe);
    FlatMembers(ds, NewOnlyFn(before, after), x);
    var n :| 0 <= n < |ds| && x in NewOnlyFn(before, after)(ds[n]);
    d := ds[n];
    LeftInOrder(before, after, d);
    var k := IndexOf(NewOnlyOf(before, after, d), x);
    i := Paired(before, after, d) + k;
    assert NewLeft(before, after, d)[i] == x && x in NewLeft(before, after, d);
  }

  /** Copies of one page are paired in order, first with first, and the copies left over are the last ones. */
  lemma CopiesPairInOrder(before: seq<string>, after: seq<string>, p: Pair, q: Pair, x: nat)
    requires p in Classify(before, after).moved && q in Classify(before, after).moved && p.digest == q.digest
    ensures p.oldPage < q.oldPage <==> p.newPage < q.newPage
    ensures x in Classify(before, after).oldOnly && 1 <= x <= |before| && before[x - 1] == p.digest ==> p.oldPage < x
    ensures x in Classify(before, after).newOnly && 1 <= x <= |after| && after[x - 1] == p.digest ==> p.newPage < x
  {
    hide OldLeft, NewLeft, Classify, Paired;
    LeftInOrder(before, after, p.digest);
    var i := MovedAt(before, after, p);
    var j := MovedAt(before, after, q);
    var olds, news := OldLeft(before, after, p.digest), NewLeft(before, after, p.digest);
    assert i < j ==> olds[i] < olds[j] && news[i] < news[j];
    assert j < i ==> olds[j] < olds[i] && news[j] < news[i];
    if x in Classify(before, after).oldOnly { var k, d := OldOnlyAt(before, after, x); }
    if x in Classify(before, after).newOnly { var k, d := NewOnlyAt(before, after, x); }
  }

  /** Every list is in page order, moved pages by old page and then new page. */
  lemma ListsInOrder(before: seq<string>, after: seq<string>)
    ensures var r := Classify(before, after);
            && (forall i, j | 0 <= i < j < |r.same| :: r.same[i].oldPage <= r.same[j].oldPage)
            && (forall i, j | 0 <= i < j < |r.moved| ::
                  r.moved[i].oldPage < r.moved[j].oldPage
                  || (r.moved[i].oldPage == r.moved[j].oldPage && r.moved[i].newPage <= r.moved[j].newPage))
            && (forall i, j | 0 <= i < j < |r.oldOnly| :: r.oldOnly[i] <= r.oldOnly[j])
            && forall i, j | 0 <= i < j < |r.newOnly| :: r.newOnly[i] <= r.newOnly[j]
  {
    hide Digests, Sort, Flat;
    var ds, r := Digests(before, after), Classify(before, after);
    assert IsPreorder(OldPageLe) && IsPreorder(PairLe) && IsPreorder(NatLe);
    SortSorted(Flat(ds, SameFn(before, after)), OldPageLe);
    SortSorted(Flat(ds, MovedFn(before, after)), PairLe);
    SortSorted(Flat(ds, OldOnlyFn(before, after)), NatLe);
    SortSorted(Flat(ds, NewOnlyFn(before, after)), NatLe);
    forall i, j | 0 <= i < j < |r.same| ensures OldPageLe(r.same[i], r.same[j]) {}
    forall i, j | 0 <= i < j < |r.moved| ensures PairLe(r.moved[i], r.moved[j]) {}
    forall i, j | 0 <= i < j < |r.oldOnly| ensures NatLe(r.oldOnly[i], r.oldOnly[j]) {}
    forall i, j | 0 <= i < j < |r.newOnly| ensures NatLe(r.newOnly[i], r.newOnly[j]) {}
  }

  // ----- groups of copies -----

  /** All pages with the digest, in order. */
  ghost predicate ListsPages(ns: seq<nat>, pages: seq<string>, d: string) {
    Increasing(ns) && forall n: nat :: n in ns <==> 1 <= n <= |pages| && pages[n - 1] == d
  }

  ghost predicate IsGroup(g: Group, before: seq<string>, after: seq<string>) {
    && (multiset(before)[g.digest] > 1 || multiset(after)[g.digest] > 1)
    && ListsPages(g.oldPages, before, g.digest) && ListsPages(g.newPages, after, g.digest)
  }

  lemma PositionsListed(ns: seq<nat>, pages: seq<string>, d: string)
    ensures ListsPages(ns, pages, d) <==> ns == Positions(pages, d)
    ensures |Positions(pages, d)| == multiset(pages)[d]
  {
    hide Positions;
    PositionsAre(pages, d);
    PositionsCount(pages, d);
    if ListsPages(ns, pages, d) { IncreasingUnique(ns, Positions(pages, d)); }
  }

  lemma GroupOfDigest(g: Group, before: seq<string>, after: seq<string>, d: string)
    ensures g in DuplicatesOf(before, after, d) <==> g.digest == d && IsGroup(g, before, after)
  {
    hide Positions, ListsPages;
    PositionsListed(g.oldPages, before, g.digest);
    PositionsListed(g.newPages, after, g.digest);
    PositionsListed(g.oldPages, before, d);
    PositionsListed(g.newPages, after, d);
  }

  lemma {:induction false} GroupsInOrder(ds: seq<string>, before: seq<string>, after: seq<string>)
    requires IsSorted(ds, StrLe) && NoDup(ds)
    ensures var gs := Flat(ds, DuplicatesFn(before, after));
            && (forall g | g in gs :: g.digest in ds)
            && forall i, j | 0 <= i < j < |gs| :: gs[i].digest != gs[j].digest && StrLe(gs[i].digest, gs[j].digest)
  {
    hide StrLe, Positions;
    if ds != [] {
      var n := |ds| - 1;
      var gs, last := Flat(ds[..n], DuplicatesFn(before, after)), DuplicatesOf(before, after, ds[n]);
      assert IsSorted(ds[..n], StrLe) && NoDup(ds[..n]);
      GroupsInOrder(ds[..n], before, after);
      forall g | g in gs ensures g.digest != ds[n] && StrLe(g.digest, ds[n]) {
        var i := IndexOf(ds[..n], g.digest);
        assert ds[i] == g.digest;
      }
      forall i, j | 0 <= i < j < |gs + last|
        ensures (gs + last)[i].digest != (gs + last)[j].digest && StrLe((gs + last)[i].digest, (gs + last)[j].digest)
      {
        if j >= |gs| { assert i < |gs| && gs[i] in gs; }
      }
    }
  }

  /** The duplicate groups are exactly the digests found more than once on a side, once each and in order, with all
    * their pages on both sides. */
  lemma DuplicateGroups(before: seq<string>, after: seq<string>)
    ensures var gs := Classify(before, after).duplicates;
            && (forall g :: g in gs <==> IsGroup(g, before, after))
            && forall i, j | 0 <= i < j < |gs| :: gs[i].digest != gs[j].digest && StrLe(gs[i].digest, gs[j].digest)
  {
    hide Sort, Distinct, StrLe, IsGroup, DuplicatesOf, Flat;
    var ds := Digests(before, after);
    DigestsFacts(before, after);
    StrLeIsPreorder();
    SortSorted(Distinct(before + after), StrLe);
    GroupsInOrder(ds, before, after);
    forall g ensures g in Flat(ds, DuplicatesFn(before, after)) <==> IsGroup(g, before, after) {
      FlatMembers(ds, DuplicatesFn(before, after), g);
      forall d: string ensures g in DuplicatesFn(before, after)(d) <==> g.digest == d && IsGroup(g, before, after) {
        GroupOfDigest(g, before, after, d);
      }
      if IsGroup(g, before, after) {
        GroupOccurs(g, before, after);
        var i := IndexOf(ds, g.digest);
        assert g in DuplicatesFn(before, after)(ds[i]);
      }
    }
  }

  lemma GroupOccurs(g: Group, before: seq<string>, after: seq<string>)
    requires IsGroup(g, before, after)
    ensures g.digest in before || g.digest in after
  {
  }
}
