/** The candidate pairs offered for review: every old page with every new page, best score first. */
module ImagePairs {
  import opened Sorting
  import opened ImageMetrics

  datatype CandidatePair = CandidatePair(oldPage: nat, newPage: nat, sameSize: bool, score: int)

  predicate CandidateLe(a: CandidatePair, b: CandidatePair) {
    a.score < b.score
      || (a.score == b.score && (a.oldPage < b.oldPage || (a.oldPage == b.oldPage && a.newPage <= b.newPage)))
  }

  function ComparePair(olds: seq<Image>, news: seq<Image>, o: nat, n: nat, root: real -> real): CandidatePair
    requires 1 <= o <= |olds| && 1 <= n <= |news| && |olds[o - 1].gray| == |news[n - 1].gray| == SIZE
  {
    CandidatePair(o, n, SameSize(olds[o - 1], news[n - 1]), CandidateScore(olds[o - 1], news[n - 1], root))
  }

  ghost predicate PagesDecoded(images: seq<Image>, pages: seq<nat>) {
    && (forall i | 0 <= i < |images| :: Decoded(images[i]))
    && (forall i | 0 <= i < |pages| :: 1 <= pages[i] <= |images|)
  }

  function CrossRow(olds: seq<Image>, news: seq<Image>, o: nat, newPages: seq<nat>,
                    root: real -> real): (r: seq<CandidatePair>)
    requires PagesDecoded(olds, [o]) && PagesDecoded(news, newPages)
    ensures |r| == |newPages| && forall i | 0 <= i < |r| :: r[i] == ComparePair(olds, news, o, newPages[i], root)
  {
    assert 1 <= [o][0] <= |olds|;
    seq(|newPages|, i requires 0 <= i < |newPages| => ComparePair(olds, news, o, newPages[i], root))
  }

  function CrossPairs(olds: seq<Image>, news: seq<Image>, oldPages: seq<nat>, newPages: seq<nat>,
                      root: real -> real): seq<CandidatePair>
    requires PagesDecoded(olds, oldPages) && PagesDecoded(news, newPages)
  {
    if oldPages == [] then [] else
      CrossRow(olds, news, oldPages[0], newPages, root) + CrossPairs(olds, news, oldPages[1..], newPages, root)
  }

  const MAX_CROSS_PAIRS := 64

  /** The candidate pairs in review order, and whether there were too many to compare. */
  function CompareChanged(olds: seq<Image>, news: seq<Image>, oldPages: seq<nat>, newPages: seq<nat>,
                          root: real -> real)
    : (seq<CandidatePair>, bool)
    requires PagesDecoded(olds, oldPages) && PagesDecoded(news, newPages)
  {
    if |oldPages| * |newPages| > MAX_CROSS_PAIRS then ([], true)
    else (Sort(CrossPairs(olds, news, oldPages, newPages, root), CandidateLe), false)
  }

  lemma {:induction false} CrossPairsScored(olds: seq<Image>, news: seq<Image>, oldPages: seq<nat>, newPages: seq<nat>,
                                            root: real -> real)
    requires PagesDecoded(olds, oldPages) && PagesDecoded(news, newPages) && IsRoot(root)
    ensures |CrossPairs(olds, news, oldPages, newPages, root)| == |oldPages| * |newPages|
    ensures forall p | p in CrossPairs(olds, news, oldPages, newPages, root) ::
              if p.sameSize then p.score <= 4_000_000_000 else p.score >= 10_000_000_000
  {
    hide CandidateScore;
    if oldPages != [] {
      var o := oldPages[0];
      CrossPairsScored(olds, news, oldPages[1..], newPages, root);
      var row := CrossRow(olds, news, o, newPages, root);
      forall i | 0 <= i < |row|
        ensures if row[i].sameSize then row[i].score <= 4_000_000_000 else row[i].score >= 10_000_000_000
      {
        ScoreSeparatesSizes(olds[o - 1], news[newPages[i] - 1], root);
      }
      assert |oldPages| * |newPages| == |newPages| + |oldPages[1..]| * |newPages|;
    }
  }

  /** All pairs of equal size come before any pair of different size; nothing is compared when there are too many. */
  lemma SameSizeFirst(olds: seq<Image>, news: seq<Image>, oldPages: seq<nat>, newPages: seq<nat>, root: real -> real)
    requires PagesDecoded(olds, oldPages) && PagesDecoded(news, newPages) && IsRoot(root)
    ensures var (list, skipped) := CompareChanged(olds, news, oldPages, newPages, root);
            && (skipped <==> |oldPages| * |newPages| > MAX_CROSS_PAIRS)
            && (!skipped ==> |list| == |oldPages| * |newPages|)
            && forall i, j | 0 <= i < j < |list| :: list[j].sameSize ==> list[i].sameSize
  {
    hide CrossPairs;
    CrossPairsScored(olds, news, oldPages, newPages, root);
    var pairs := CrossPairs(olds, news, oldPages, newPages, root);
    assert IsPreorder(CandidateLe);
    SortSorted(pairs, CandidateLe);
    SortMembers(pairs, CandidateLe);
    var list := Sort(pairs, CandidateLe);
    forall i, j | 0 <= i < j < |list| ensures list[j].sameSize ==> list[i].sameSize {
      assert CandidateLe(list[i], list[j]) && list[i] in list && list[j] in list;
    }
  }

  // ----- what an entry says -----

  function PagesOf(p: CandidatePair): (nat, nat) {
    (p.oldPage, p.newPage)
  }

  /** Every element of a with every element of b. */
  function Product(a: seq<nat>, b: seq<nat>): seq<(nat, nat)> {
    if a == [] then [] else Map(b, (n: nat) => (a[0], n)) + Product(a[1..], b)
  }

  lemma {:induction false} AllPairs(olds: seq<Image>, news: seq<Image>, oldPages: seq<nat>, newPages: seq<nat>,
                                    root: real -> real)
    requires PagesDecoded(olds, oldPages) && PagesDecoded(news, newPages)
    ensures Map(CrossPairs(olds, news, oldPages, newPages, root), PagesOf) == Product(oldPages, newPages)
  {
    hide CandidateScore, SameSize;
    if oldPages != [] {
      var o := oldPages[0];
      var row, rest := CrossRow(olds, news, o, newPages, root), CrossPairs(olds, news, oldPages[1..], newPages, root);
      AllPairs(olds, news, oldPages[1..], newPages, root);
      assert Map(row + rest, PagesOf) == Map(row, PagesOf) + Map(rest, PagesOf);
      assert Map(row, PagesOf) == Map(newPages, (n: nat) => (o, n));
    }
  }

  /** The score formula of one pair, from its two images. */
  ghost function Formula(x: Image, y: Image, root: real -> real): real
    requires Decoded(x) && Decoded(y)
  {
    var m := Measure(x, y);
    (if x.width == y.width && x.height == y.height then 0.0 else 10.0)
    + m.hamming as real / 1024.0
    + (m.sumDiff as real / 1024.0) / 255.0
    + root(m.sumSquares as real / 1024.0) / 255.0
    + m.p99 as real / 255.0
  }

  /** The entry names two pages, and size and score are those of the images on these pages. */
  ghost predicate TrueOf(p: CandidatePair, olds: seq<Image>, news: seq<Image>, root: real -> real) {
    && 1 <= p.oldPage <= |olds| && 1 <= p.newPage <= |news|
    && var x, y := olds[p.oldPage - 1], news[p.newPage - 1];
       && Decoded(x) && Decoded(y)
       && (p.sameSize <==> x.width == y.width && x.height == y.height)
       && -0.5 <= p.score as real - 1000000000.0 * Formula(x, y, root) <= 0.5
  }

  lemma {:induction false} EntriesTrue(olds: seq<Image>, news: seq<Image>, oldPages: seq<nat>, newPages: seq<nat>,
                                       root: real -> real)
    requires PagesDecoded(olds, oldPages) && PagesDecoded(news, newPages)
    ensures forall p | p in CrossPairs(olds, news, oldPages, newPages, root) :: TrueOf(p, olds, news, root)
  {
    hide Measure, TrueOf;
    if oldPages != [] {
      var o := oldPages[0];
      EntriesTrue(olds, news, oldPages[1..], newPages, root);
      var row := CrossRow(olds, news, o, newPages, root);
      forall i | 0 <= i < |row| ensures TrueOf(row[i], olds, news, root) {
        EntryTrue(olds, news, o, newPages[i], root);
      }
    }
  }

  lemma EntryTrue(olds: seq<Image>, news: seq<Image>, o: nat, n: nat, root: real -> real)
    requires 1 <= o <= |olds| && 1 <= n <= |news| && Decoded(olds[o - 1]) && Decoded(news[n - 1])
    ensures TrueOf(ComparePair(olds, news, o, n, root), olds, news, root)
  {
    hide Measure;
    assert RawScore(olds[o - 1], news[n - 1], root) == Formula(olds[o - 1], news[n - 1], root);
  }

  /** The list offers every old page with every new page, as often as both are listed; each entry is true of the images
    * on its own two pages; and the order is by score, then old page, then new page. */
  lemma PairsAreExact(olds: seq<Image>, news: seq<Image>, oldPages: seq<nat>, newPages: seq<nat>, root: real -> real)
    requires PagesDecoded(olds, oldPages) && PagesDecoded(news, newPages) && |oldPages| * |newPages| <= 64
    ensures var (list, skipped) := CompareChanged(olds, news, oldPages, newPages, root);
            && !skipped
            && multiset(Map(list, PagesOf)) == multiset(Product(oldPages, newPages))
            && (forall p | p in list :: TrueOf(p, olds, news, root))
            && forall i, j | 0 <= i < j < |list| ::
                 list[i].score < list[j].score
                 || (list[i].score == list[j].score
                     && (list[i].oldPage < list[j].oldPage
                         || (list[i].oldPage == list[j].oldPage && list[i].newPage <= list[j].newPage)))
  {
    hide CrossPairs, TrueOf;
    var pairs := CrossPairs(olds, news, oldPages, newPages, root);
    var list := Sort(pairs, CandidateLe);
    assert IsPreorder(CandidateLe);
    SortSorted(pairs, CandidateLe);
    SortMembers(pairs, CandidateLe);
    MapPermuted(pairs, list, PagesOf);
    EntriesTrue(olds, news, oldPages, newPages, root);
    AllPairs(olds, news, oldPages, newPages, root);
    forall i, j | 0 <= i < j < |list| ensures CandidateLe(list[i], list[j]) {}
  }

  /** The numbers in the formula: pixels on which one page is at least as bright as its mean and the other is not, the
    * summed distances and their squares; the percentile is characterised on its own. */
  lemma MetricsAreCounts(x: Image, y: Image)
    requires Decoded(x) && Decoded(y)
    ensures var m := Measure(x, y);
            && m.hamming == |(set i: nat | i < 1024 &&
                 (x.gray[i] as real >= Sum(x.gray) as real / 1024.0)
                 != (y.gray[i] as real >= Sum(y.gray) as real / 1024.0))|
            && (exists d: seq<int> ::
                  |d| == 1024 && m.sumDiff == Sum(d) && m.sumSquares == SumSquares(d) && m.p99 == P99(d)
                  && forall i | 0 <= i < 1024 ::
                     d[i] == if x.gray[i] < y.gray[i] then y.gray[i] - x.gray[i] else x.gray[i] - y.gray[i])
  {
    hide Sum, SumSquares, P99;
    HammingCounts(x.gray, y.gray, SIZE);
    forall i: nat | i < SIZE
      ensures AboveMean(x.gray, i) <==> x.gray[i] as real >= Sum(x.gray) as real / 1024.0
      ensures AboveMean(y.gray, i) <==> y.gray[i] as real >= Sum(y.gray) as real / 1024.0
    {
    }
    assert (set i: nat | i < SIZE && (AboveMean(x.gray, i) != AboveMean(y.gray, i)))
        == (set i: nat | i < 1024 &&
              (x.gray[i] as real >= Sum(x.gray) as real / 1024.0)
              != (y.gray[i] as real >= Sum(y.gray) as real / 1024.0));
    var d := Diffs(x.gray, y.gray);
    assert |d| == 1024;
  }
}
