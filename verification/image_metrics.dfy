/** Distances between two decoded page images, and the order in which changed pages are offered for review. */
module ImageMetrics {
  import opened Foundations
  import opened Sorting

  /** A gray vector of n values in 0..255. */
  ghost predicate Gray(a: seq<int>) {
    forall i | 0 <= i < |a| :: 0 <= a[i] <= 255
  }

  function Abs(x: int): (r: nat)
    ensures r == x || r == -x
  {
    if x < 0 then -x else x
  }

  function Diffs(a: seq<int>, b: seq<int>): (r: seq<nat>)
    requires |a| == |b|
    ensures |r| == |a| && forall i | 0 <= i < |r| :: r[i] == Abs(a[i] - b[i])
  {
    seq(|a|, i requires 0 <= i < |a| => Abs(a[i] - b[i]))
  }

  function Sum(s: seq<int>): int {
    if s == [] then 0 else s[0] + Sum(s[1..])
  }

  function SumSquares(s: seq<int>): (r: int)
    ensures r >= 0
  {
    if s == [] then 0 else s[0] * s[0] + SumSquares(s[1..])
  }

  // The mean absolute error is Sum(d)/n and the squared root-mean-square error SumSquares(d)/n.

  // ----- mean absolute error and root mean square -----

  lemma SpreadStep(x: int, c: int, t: int, q: int, u: int)
    requires q - 2 * (c * t) + u * (c * c) >= 0
    ensures (x * x + q) - 2 * (c * (x + t)) + (u + 1) * (c * c) >= 0
  {
    assert (x - c) * (x - c) == x * x - 2 * (c * x) + c * c;
    assert c * (x + t) == c * x + c * t;
    assert (u + 1) * (c * c) == u * (c * c) + c * c;
    SquareNonNegative(x - c);
  }

  lemma SquareNonNegative(x: int)
    ensures x * x >= 0
  {
  }

  /** The squared distance of the values from c is never negative. */
  lemma {:induction false} SpreadNonNegative(s: seq<int>, c: int)
    ensures SumSquares(s) - 2 * (c * Sum(s)) + |s| * (c * c) >= 0
  {
    if s != [] {
      SpreadNonNegative(s[1..], c);
      SpreadStep(s[0], c, Sum(s[1..]), SumSquares(s[1..]), |s[1..]|);
    }
  }

  /** Cauchy-Schwarz: the mean absolute error never exceeds the root mean square error. */
  lemma {:induction false} MaeAtMostRms(s: seq<int>)
    ensures Sum(s) * Sum(s) <= |s| * SumSquares(s)
  {
    if s != [] {
      var x, t, q, n := s[0], Sum(s[1..]), SumSquares(s[1..]), |s| - 1;
      MaeAtMostRms(s[1..]);
      SpreadNonNegative(s[1..], x);
      assert (x + t) * (x + t) == x * x + 2 * (x * t) + t * t;
      assert (n + 1) * (x * x + q) == n * (x * x) + n * q + x * x + q;
    }
  }

  lemma SquareAtMost(x: int)
    requires 0 <= x <= 255
    ensures 0 <= x * x <= 255 * x
  {
    MulLt(x, 256, x);
    SquareNonNegative(x);
  }

  /** Values up to 255: the squared root mean square error is at most 255 times the mean absolute error. */
  lemma {:induction false} RmsSquaredAtMost(s: seq<int>)
    requires Gray(s)
    ensures 0 <= SumSquares(s) <= 255 * Sum(s) && Sum(s) <= 255 * |s|
  {
    if s != [] {
      RmsSquaredAtMost(s[1..]);
      SquareAtMost(s[0]);
    }
  }

  // ----- the 99th percentile -----

  predicate IntLe(a: int, b: int) { a <= b }

  const SIZE := 1024

  /** ceil(0.99 * 1024) - 1, capped at the last index. */
  const P99_INDEX := 1013

  function P99(d: seq<int>): int
    requires |d| == SIZE
  {
    Sort(d, IntLe)[P99_INDEX]
  }

  function CountIf(s: seq<int>, p: int -> bool): (n: nat)
    ensures n <= |s|
  {
    if s == [] then 0 else (if p(s[0]) then 1 else 0) + CountIf(s[1..], p)
  }

  lemma {:induction false} SumConcat(a: seq<int>, b: seq<int>)
    ensures Sum(a + b) == Sum(a) + Sum(b)
    ensures SumSquares(a + b) == SumSquares(a) + SumSquares(b)
  {
    if a == [] {
      assert a + b == b;
    } else {
      assert (a + b)[1..] == a[1..] + b;
      SumConcat(a[1..], b);
    }
  }

  lemma {:induction false} InsertSum(x: int, s: seq<int>)
    ensures Sum(Insert(x, s, IntLe)) == x + Sum(s)
  {
    if s != [] && !IntLe(x, s[0]) { InsertSum(x, s[1..]); }
  }

  lemma {:induction false} SortSum(s: seq<int>)
    ensures Sum(Sort(s, IntLe)) == Sum(s)
  {
    if s != [] {
      SortSum(s[1..]);
      InsertSum(s[0], Sort(s[1..], IntLe));
    }
  }

  lemma {:induction false} InsertCount(x: int, s: seq<int>, p: int -> bool)
    ensures CountIf(Insert(x, s, IntLe), p) == CountIf(s, p) + if p(x) then 1 else 0
  {
    if s != [] && !IntLe(x, s[0]) { InsertCount(x, s[1..], p); }
  }

  lemma {:induction false} SortCount(s: seq<int>, p: int -> bool)
    ensures CountIf(Sort(s, IntLe), p) == CountIf(s, p)
  {
    if s != [] {
      SortCount(s[1..], p);
      InsertCount(s[0], Sort(s[1..], IntLe), p);
    }
  }

  lemma {:induction false} SumAtLeast(s: seq<int>, lo: int)
    requires forall i | 0 <= i < |s| :: s[i] >= lo
    ensures Sum(s) >= |s| * lo
  {
    if s != [] {
      SumAtLeast(s[1..], lo);
      assert |s| * lo == lo + |s[1..]| * lo;
    }
  }

  lemma {:induction false} CountConcat(a: seq<int>, b: seq<int>, p: int -> bool)
    ensures CountIf(a + b, p) == CountIf(a, p) + CountIf(b, p)
  {
    if a == [] {
      assert a + b == b;
    } else {
      assert (a + b)[1..] == a[1..] + b;
      CountConcat(a[1..], b, p);
    }
  }

  lemma {:induction false} CountAll(s: seq<int>, p: int -> bool)
    ensures (forall i | 0 <= i < |s| :: p(s[i])) ==> CountIf(s, p) == |s|
    ensures (forall i | 0 <= i < |s| :: !p(s[i])) ==> CountIf(s, p) == 0
  {
    if s != [] { CountAll(s[1..], p); }
  }

  lemma SortedDiffs(d: seq<int>)
    ensures IsSorted(Sort(d, IntLe), IntLe)
  {
    assert IsPreorder(IntLe);
    SortSorted(d, IntLe);
  }

  /** In a sorted list, more than k values are at most the k-th, and at most k are below it. */
  lemma RankCounts(s: seq<int>, k: nat)
    requires IsSorted(s, IntLe) && k < |s|
    ensures CountIf(s, (x: int) => x <= s[k]) >= k + 1
    ensures CountIf(s, (x: int) => x < s[k]) <= k
  {
    hide CountIf;
    var atMost, below := (x: int) => x <= s[k], (x: int) => x < s[k];
    forall i | 0 <= i <= k ensures atMost(s[i]) { assert i < k ==> IntLe(s[i], s[k]); }
    forall i | k <= i < |s| ensures !below(s[i]) { assert k < i ==> IntLe(s[k], s[i]); }
    CountAtLeast(s, k, atMost);
    CountAtMost(s, k, below);
  }

  lemma CountAtLeast(s: seq<int>, k: nat, p: int -> bool)
    requires k < |s| && forall i | 0 <= i <= k :: p(s[i])
    ensures CountIf(s, p) >= k + 1
  {
    hide CountIf;
    assert s == s[..k + 1] + s[k + 1..];
    CountConcat(s[..k + 1], s[k + 1..], p);
    CountAll(s[..k + 1], p);
  }

  lemma CountAtMost(s: seq<int>, k: nat, p: int -> bool)
    requires k < |s| && forall i | k <= i < |s| :: !p(s[i])
    ensures CountIf(s, p) <= k
  {
    hide CountIf;
    assert s == s[..k] + s[k..];
    CountConcat(s[..k], s[k..], p);
    CountAll(s[k..], p);
  }

  /** In a sorted list of non-negative values, the k-th and the later ones add up to at least the k-th times their
    * number. */
  lemma RankSum(s: seq<int>, k: nat)
    requires IsSorted(s, IntLe) && k < |s| && forall i | 0 <= i < |s| :: s[i] >= 0
    ensures Sum(s) >= (|s| - k) * s[k]
  {
    var a, b := s[..k], s[k..];
    assert s == a + b;
    SumConcat(a, b);
    SumAtLeast(a, 0);
    forall i | 0 <= i < |b| ensures b[i] >= s[k] { assert 0 < i ==> IntLe(s[k], s[k + i]); }
    SumAtLeast(b, s[k]);
  }

  /** p99 is the nearest-rank percentile: at least 99% of the values are at most p99, fewer than 99% are below it. */
  lemma P99IsNearestRank(d: seq<int>)
    requires |d| == SIZE
    ensures 100 * CountIf(d, (x: int) => x <= P99(d)) >= 99 * SIZE
    ensures 100 * CountIf(d, (x: int) => x < P99(d)) < 99 * SIZE
  {
    hide CountIf, Sort;
    var s, p := Sort(d, IntLe), P99(d);
    SortedDiffs(d);
    RankCounts(s, P99_INDEX);
    SortCount(d, (x: int) => x <= p);
    SortCount(d, (x: int) => x < p);
    SameCount(s, (x: int) => x <= p, (x: int) => x <= s[P99_INDEX]);
    SameCount(s, (x: int) => x < p, (x: int) => x < s[P99_INDEX]);
    SameCount(d, (x: int) => x <= p, (x: int) => x <= P99(d));
    SameCount(d, (x: int) => x < p, (x: int) => x < P99(d));
  }

  lemma {:induction false} SameCount(s: seq<int>, p: int -> bool, q: int -> bool)
    requires forall x :: p(x) == q(x)
    ensures CountIf(s, p) == CountIf(s, q)
  {
    if s != [] { SameCount(s[1..], p, q); }
  }

  /** Eleven of the 1024 values are at least p99, so eleven times p99 is at most their sum. */
  lemma P99BoundsSum(d: seq<int>)
    requires |d| == SIZE && forall i | 0 <= i < |d| :: d[i] >= 0
    ensures 11 * P99(d) <= Sum(d)
    ensures P99(d) in d
  {
    hide Sum, Sort;
    var s := Sort(d, IntLe);
    SortedDiffs(d);
    SortMembers(d, IntLe);
    SortSum(d);
    forall i | 0 <= i < |s| ensures s[i] >= 0 { assert s[i] in s && s[i] in d; }
    RankSum(s, P99_INDEX);
    assert s[P99_INDEX] in s;
  }

  // ----- Hamming distance of the above-mean patterns -----

  predicate AboveMean(a: seq<int>, i: nat)
    requires i < |a|
  {
    a[i] * |a| >= Sum(a)
  }

  function HammingUpTo(a: seq<int>, b: seq<int>, n: nat): (h: nat)
    requires n <= |a| == |b|
    ensures h <= n
  {
    if n == 0 then 0 else HammingUpTo(a, b, n - 1) + if AboveMean(a, n - 1) != AboveMean(b, n - 1) then 1 else 0
  }

  lemma {:induction false} HammingSymmetric(a: seq<int>, b: seq<int>, n: nat)
    requires n <= |a| == |b|
    ensures HammingUpTo(a, b, n) == HammingUpTo(b, a, n)
    ensures a == b ==> HammingUpTo(a, b, n) == 0
  {
    if n > 0 { HammingSymmetric(a, b, n - 1); }
  }

  lemma {:induction false} HammingCounts(a: seq<int>, b: seq<int>, n: nat)
    requires n <= |a| == |b|
    ensures HammingUpTo(a, b, n)
            == |(set i: nat | i < n && (AboveMean(a, i) != AboveMean(b, i)))|
  {
    var differ := set i: nat | i < n && (AboveMean(a, i) != AboveMean(b, i));
    if n == 0 {
      assert differ == {};
    } else {
      HammingCounts(a, b, n - 1);
      var before := set i: nat | i < n - 1 && (AboveMean(a, i) != AboveMean(b, i));
      assert differ == before + if AboveMean(a, n - 1) != AboveMean(b, n - 1) then {n - 1} else {};
    }
  }

  // ----- one comparison -----

  datatype Image = Image(width: int, height: int, gray: seq<int>)

  ghost predicate Decoded(i: Image) {
    |i.gray| == SIZE && Gray(i.gray)
  }

  predicate SameSize(x: Image, y: Image) {
    x.width == y.width && x.height == y.height
  }

  datatype Metrics = Metrics(hamming: nat, sumDiff: int, sumSquares: int, p99: int)

  function Measure(x: Image, y: Image): Metrics
    requires |x.gray| == |y.gray| == SIZE
  {
    var d := Diffs(x.gray, y.gray);
    Metrics(HammingUpTo(x.gray, y.gray, SIZE), Sum(d), SumSquares(d), P99(d))
  }

  lemma DiffsGray(a: seq<int>, b: seq<int>)
    requires |a| == |b| && Gray(a) && Gray(b)
    ensures Gray(Diffs(a, b))
  {
  }

  lemma {:induction false} ZeroSum(s: seq<int>)
    requires forall i | 0 <= i < |s| :: s[i] == 0
    ensures Sum(s) == 0 && SumSquares(s) == 0
  {
    if s != [] { ZeroSum(s[1..]); }
  }

  /** All four metrics are symmetric, and zero for equal gray vectors. */
  lemma MetricsSymmetric(x: Image, y: Image)
    requires Decoded(x) && Decoded(y)
    ensures Measure(x, y) == Measure(y, x)
    ensures x.gray == y.gray ==> Measure(x, y) == Metrics(0, 0, 0, 0)
  {
    hide P99, Sum, SumSquares;
    HammingSymmetric(x.gray, y.gray, SIZE);
    assert Diffs(x.gray, y.gray) == Diffs(y.gray, x.gray);
    if x.gray == y.gray {
      ZeroSum(Diffs(x.gray, y.gray));
      P99BoundsSum(Diffs(x.gray, y.gray));
    }
  }

  /** The bounds every comparison of two decoded pages obeys. */
  lemma MetricBounds(x: Image, y: Image)
    requires Decoded(x) && Decoded(y)
    ensures var m := Measure(x, y);
            && 0 <= m.hamming <= SIZE && 0 <= m.p99 <= 255 && 0 <= m.sumDiff <= 255 * SIZE
            && m.sumDiff * m.sumDiff <= SIZE * m.sumSquares
            && 0 <= m.sumSquares <= 255 * m.sumDiff
            && 11 * m.p99 <= m.sumDiff
  {
    hide P99, Sum, SumSquares;
    var d := Diffs(x.gray, y.gray);
    DiffsGray(x.gray, y.gray);
    MaeAtMostRms(d);
    RmsSquaredAtMost(d);
    P99BoundsSum(d);
    SumAtLeast(d, 0);
  }

  // ----- scores -----

  /** `root` is the square root. */
  ghost predicate IsRoot(root: real -> real) {
    forall x: real | x >= 0.0 :: root(x) >= 0.0 && root(x) * root(x) == x
  }

  lemma RoundRealBounds(x: real, lo: int, hi: int)
    requires lo as real <= x <= hi as real
    ensures lo <= RoundReal(x) <= hi
  {
  }

  function RawScore(x: Image, y: Image, root: real -> real): real
    requires |x.gray| == |y.gray| == SIZE
  {
    var m := Measure(x, y);
    (if SameSize(x, y) then 0.0 else 10.0) + m.hamming as real / 1024.0 + m.sumDiff as real / 1024.0 / 255.0
      + root(m.sumSquares as real / 1024.0) / 255.0 + m.p99 as real / 255.0
  }

  /** The candidate score, in units of 1e-9. */
  function CandidateScore(x: Image, y: Image, root: real -> real): int
    requires |x.gray| == |y.gray| == SIZE
  {
    RoundReal(RawScore(x, y, root) * 1000000000.0)
  }

  lemma RootAtMost(r: real, hi: real)
    requires r >= 0.0 && hi >= 0.0 && r * r <= hi * hi
    ensures r <= hi
  {
    if r > hi { RealSquareGrows(hi, r); }
  }

  lemma RealSquareGrows(a: real, b: real)
    requires 0.0 <= a < b
    ensures a * a < b * b
  {
    var step := b - a;
    assert b * b == a * a + 2.0 * (a * step) + step * step;
    assert a * step >= 0.0 && step * step > 0.0;
  }

  /** Pages of equal size score at most 4, pages of different size at least 10. */
  lemma ScoreSeparatesSizes(x: Image, y: Image, root: real -> real)
    requires Decoded(x) && Decoded(y) && IsRoot(root)
    ensures SameSize(x, y) ==> 0 <= CandidateScore(x, y, root) <= 4_000_000_000
    ensures !SameSize(x, y) ==> CandidateScore(x, y, root) >= 10_000_000_000
  {
    hide Measure;
    MetricBounds(x, y);
    var m := Measure(x, y);
    var mean := m.sumSquares as real / 1024.0;
    var r := root(mean);
    assert m.sumSquares <= 255 * (255 * 1024);
    assert 0.0 <= mean <= 255.0 * 255.0;
    RootAtMost(r, 255.0);
    var raw := RawScore(x, y, root);
    var base := if SameSize(x, y) then 0.0 else 10.0;
    assert 0.0 <= m.sumDiff as real / 1024.0 / 255.0 <= 1.0 by { assert m.sumDiff <= 255 * 1024; }
    assert 0.0 <= m.hamming as real / 1024.0 <= 1.0 && 0.0 <= r / 255.0 <= 1.0 && 0.0 <= m.p99 as real / 255.0 <= 1.0;
    assert raw == base + m.hamming as real / 1024.0 + m.sumDiff as real / 1024.0 / 255.0 + r / 255.0
           + m.p99 as real / 255.0;
    assert base <= raw <= base + 4.0;
    var lo := if SameSize(x, y) then 0 else 10_000_000_000;
    RoundRealBounds(raw * 1000000000.0, lo, lo + 4_000_000_000);
  }

  // ----- the strict visual test of the two tools -----

  datatype Thresholds = Thresholds(maxHamming: int, maxMae: real, maxRms: real, maxP99: int)

  /** The rollover tool compares the two [width, height] lists and the root mean square itself. */
  predicate StrictReview(x: Image, y: Image, t: Thresholds, root: real -> real)
    requires |x.gray| == |y.gray| == SIZE
  {
    var m := Measure(x, y);
    && [x.width, x.height] == [y.width, y.height]
    && m.hamming <= t.maxHamming
    && m.sumDiff as real / 1024.0 <= t.maxMae
    && root(m.sumSquares as real / 1024.0) <= t.maxRms
    && m.p99 <= t.maxP99
  }

  /** The acquisition tool compares width and height one by one. */
  predicate StrictAcquisition(x: Image, y: Image, t: Thresholds, root: real -> real)
    requires |x.gray| == |y.gray| == SIZE
  {
    var m := Measure(x, y);
    && x.width == y.width && x.height == y.height
    && m.hamming <= t.maxHamming
    && m.sumDiff as real / 1024.0 <= t.maxMae
    && root(m.sumSquares as real / 1024.0) <= t.maxRms
    && m.p99 <= t.maxP99
  }

  /** The two tools accept the same pairs. */
  lemma StrictTestsAgree(x: Image, y: Image, t: Thresholds, root: real -> real)
    requires Decoded(x) && Decoded(y)
    ensures StrictReview(x, y, t, root) <==> StrictAcquisition(x, y, t, root)
  {
    hide Measure;
    var a, b := [x.width, x.height], [y.width, y.height];
    assert a == b <==> a[0] == b[0] && a[1] == b[1];
  }

  /** The root mean square test needs no root: it is the comparison of the squares. */
  lemma RmsTestBySquares(x: Image, y: Image, limit: real, root: real -> real)
    requires Decoded(x) && Decoded(y) && IsRoot(root)
    ensures root(Measure(x, y).sumSquares as real / 1024.0) <= limit
            <==> limit >= 0.0 && Measure(x, y).sumSquares as real / 1024.0 <= limit * limit
  {
    hide Measure;
    MetricBounds(x, y);
    var mean := Measure(x, y).sumSquares as real / 1024.0;
    var r := root(mean);
    if limit >= 0.0 {
      if mean <= limit * limit { RootAtMost(r, limit); }
      if r < limit { RealSquareGrows(r, limit); }
    }
  }
}
