/** The matching rule of a parity run in terms of tokens, prices, pages and scopes. */
module ParityRules {
  import opened Foundations
  import opened ParityModel
  import opened ParityMatching

  /** The share of wanted tokens that are held; no wanted tokens count as no share. */
  ghost function Share(wanted: set<string>, held: set<string>): real {
    if wanted == {} then 0.0 else |wanted * held| as real / |wanted| as real
  }

  ghost function Tokens(s: seq<string>): set<string> {
    set t | t in s
  }

  ghost predicate SamePrice(o: Offer, k: Card) {
    o.price.Some? && k.price.Some? && o.price.value == k.price.value
  }

  /** The card may be the offer's: same page, not out of scope, and enough of the title, with the price or the brand to
    * go with it. */
  ghost predicate Fits(o: Offer, k: Card) {
    var title, brand, held := Tokens(o.titleTokens), Tokens(o.brandTokens), Tokens(k.tokens);
    && o.page == k.page && k.scope != OutOfScope
    && (|| (SamePrice(o, k) && Share(title, held) >= 0.6)
        || (Share(title, held) >= 0.85 && (brand != {} ==> exists t :: t in brand && t in held)))
  }

  /** Points: 100 for the title, 20 for the price, 5 for the brand. */
  ghost function Points(o: Offer, k: Card): real {
    100.0 * Share(Tokens(o.titleTokens), Tokens(k.tokens))
    + (if SamePrice(o, k) then 20.0 else 0.0)
    + 5.0 * Share(Tokens(o.brandTokens), Tokens(k.tokens))
  }

  /** Rounded to six decimals, in millionths. */
  ghost function Rounded(x: real): int {
    RoundReal(1000000.0 * x)
  }

  // ----- scores are points -----

  lemma RoundingUnique(x: real, n: int)
    requires -0.5 <= n as real - x <= 0.5
    requires n as real - x == 0.5 || n as real - x == -0.5 ==> n % 2 == 0
    ensures RoundReal(x) == n
  {
  }

  lemma PositiveProduct(a: real, d: real)
    requires a > 0.0 && d > 0.0
    ensures a * d > 0.0
  {
  }

  /** A factor is known from its product with a positive number. */
  lemma FactorBounds(gap: real, d: real, p: real)
    requires d > 0.0 && p == gap * d
    ensures 2.0 * p <= d ==> gap <= 0.5
    ensures 2.0 * p >= -d ==> gap >= -0.5
    ensures gap == 0.5 ==> 2.0 * p == d
    ensures gap == -0.5 ==> 2.0 * p == -d
  {
    if gap > 0.5 {
      PositiveProduct(gap - 0.5, d);
      assert (gap - 0.5) * d == p - 0.5 * d;
    }
    if gap < -0.5 {
      PositiveProduct(-0.5 - gap, d);
      assert (-0.5 - gap) * d == -0.5 * d - p;
    }
  }

  lemma RoundRatio(num: int, den: int, x: real)
    requires den > 0 && x * (den as real) == num as real
    ensures RoundHalfEven(num, den) == RoundReal(x)
  {
    hide RoundHalfEven, RoundReal;
    var r, d := RoundHalfEven(num, den), den as real;
    var gap := r as real - x;
    var p := (r * den - num) as real;
    assert gap * d == p by {
      assert gap * d == (r as real) * d - x * d;
      ProductAsReal(r, den);
    }
    FactorBounds(gap, d, p);
    RoundingUnique(x, r);
  }

  lemma ProductAsReal(a: int, b: int)
    ensures (a as real) * (b as real) == (a * b) as real
  {
  }

  lemma TokensAre(o: Offer, k: Card)
    ensures Tokens(o.titleTokens) == TokenSet(View(o).titleTokens)
            && Tokens(o.brandTokens) == TokenSet(View(o).brandTokens)
    ensures Tokens(k.tokens) == TokenSet(k.tokens)
    ensures View(o).page == o.page && (SamePrice(o, k) <==> PriceMatch(View(o), k))
  {
  }

  lemma ShareTimes(wanted: set<string>, held: set<string>)
    requires wanted != {}
    ensures Share(wanted, held) * (|wanted| as real) == |wanted * held| as real
  {
    assert |wanted| > 0;
  }

  lemma CompareScaled(a: real, b: real, d: real)
    requires d > 0.0
    ensures a >= b <==> a * d >= b * d
  {
    if a > b { PositiveProduct(a - b, d); } else if a < b { PositiveProduct(b - a, d); }
    assert (a - b) * d == a * d - b * d && (b - a) * d == b * d - a * d;
  }

  /** The eligibility test on integers is the test of the shares. */
  lemma ShareAtLeast(hits: nat, n: nat, share: real)
    requires n > 0 && share * (n as real) == hits as real
    ensures 5 * hits >= 3 * n <==> share >= 0.6
    ensures 20 * hits >= 17 * n <==> share >= 0.85
  {
    Percentages(hits, n);
    OneThreshold(hits, n, share, 0.6);
    OneThreshold(hits, n, share, 0.85);
  }

  lemma OneThreshold(hits: nat, n: nat, share: real, least: real)
    requires n > 0 && share * (n as real) == hits as real
    ensures share >= least <==> hits as real >= least * (n as real)
  {
    CompareScaled(share, least, n as real);
  }

  lemma Percentages(hits: nat, n: nat)
    ensures 5 * hits >= 3 * n <==> hits as real >= 0.6 * (n as real)
    ensures 20 * hits >= 17 * n <==> hits as real >= 0.85 * (n as real)
  {
  }

  /** A card is scored for an offer exactly when it fits. */
  lemma ScoredIffFits(o: Offer, k: Card)
    ensures Score(View(o), k).Some? <==> Fits(o, k)
  {
    hide View, RoundHalfEven;
    TokensAre(o, k);
    var title, brand, held := Tokens(o.titleTokens), Tokens(o.brandTokens), Tokens(k.tokens);
    if title != {} {
      ShareTimes(title, held);
      ShareAtLeast(|title * held|, |title|, Share(title, held));
      if held == {} { assert title * held == {}; }
    }
    if t :| t in brand && t in held { assert t in brand * held; }
    if brand * held != {} { var t :| t in brand * held; }
  }

  lemma Expand(s: real, p: real, b: real, n: real, m: real)
    ensures (100.0 * s + p + 5.0 * b) * (n * m) == 100.0 * ((s * n) * m) + p * (n * m) + 5.0 * ((b * m) * n)
  {
  }

  lemma PointNumbers(s: real, b: real, hits: nat, n: nat, marks: nat, m: nat, price: bool)
    requires s * (n as real) == hits as real && b * (m as real) == marks as real
    ensures (100.0 * s + (if price then 20.0 else 0.0) + 5.0 * b) * ((n * m) as real)
            == (100 * (hits * m) + (if price then 20 * (n * m) else 0) + 5 * (marks * n)) as real
  {
    ProductAsReal(hits, m);
    ProductAsReal(marks, n);
    ProductAsReal(n, m);
    Expand(s, if price then 20.0 else 0.0, b, n as real, m as real);
    SumAsReal(hits * m, if price then n * m else 0, marks * n);
  }

  lemma SumAsReal(a: nat, b: nat, c: nat)
    ensures (100 * a + 20 * b + 5 * c) as real == 100.0 * (a as real) + 20.0 * (b as real) + 5.0 * (c as real)
  {
  }

  lemma TitleShare(o: Offer, k: Card)
    requires Tokens(o.titleTokens) != {}
    ensures Share(Tokens(o.titleTokens), Tokens(k.tokens)) * (|TokenSet(View(o).titleTokens)| as real)
            == TitleHits(View(o), k) as real
  {
    hide View;
    TokensAre(o, k);
    ShareTimes(Tokens(o.titleTokens), Tokens(k.tokens));
  }

  lemma BrandShare(o: Offer, k: Card, m: nat)
    requires m == if TokenSet(View(o).brandTokens) == {} then 1 else |TokenSet(View(o).brandTokens)|
    ensures Share(Tokens(o.brandTokens), Tokens(k.tokens)) * (m as real) == BrandHits(View(o), k) as real
  {
    hide View;
    TokensAre(o, k);
    var brand, held := Tokens(o.brandTokens), Tokens(k.tokens);
    if brand == {} { NoShare(held); assert brand * held == {}; } else { ShareTimes(brand, held); }
  }

  lemma PointsTimesDen(o: Offer, k: Card)
    requires Tokens(o.titleTokens) != {}
    ensures Points(o, k) * (ScoreDen(View(o)) as real) == ScoreNum(View(o), k) as real
  {
    hide View, Share, Tokens, TitleHits, BrandHits, ScoreNum, ScoreDen, Points;
    var c := View(o);
    var m := if TokenSet(c.brandTokens) == {} then 1 else |TokenSet(c.brandTokens)|;
    TitleShare(o, k);
    BrandShare(o, k, m);
    PointsOf(o, k, c, |TokenSet(c.titleTokens)|, m, Share(Tokens(o.titleTokens), Tokens(k.tokens)),
             Share(Tokens(o.brandTokens), Tokens(k.tokens)));
  }

  lemma PointsOf(o: Offer, k: Card, c: Candidate, n: nat, m: nat, s: real, b: real)
    requires c == View(o) && n == |TokenSet(c.titleTokens)|
    requires m == if TokenSet(c.brandTokens) == {} then 1 else |TokenSet(c.brandTokens)|
    requires s == Share(Tokens(o.titleTokens), Tokens(k.tokens)) && b == Share(Tokens(o.brandTokens), Tokens(k.tokens))
    requires s * (n as real) == TitleHits(c, k) as real && b * (m as real) == BrandHits(c, k) as real
    ensures Points(o, k) * (ScoreDen(c) as real) == ScoreNum(c, k) as real
  {
    hide View, Share, Tokens, TitleHits, BrandHits, ScoreNum, ScoreDen, Points, PriceMatch, SamePrice, TokenSet;
    ScoreNumbers(c, k);
    PointNumbers(s, b, TitleHits(c, k), n, BrandHits(c, k), m, SamePrice(o, k));
    PricesAgree(o, k, c);
    PointsSum(o, k, s, b);
  }

  lemma PricesAgree(o: Offer, k: Card, c: Candidate)
    requires c == View(o)
    ensures SamePrice(o, k) <==> PriceMatch(c, k)
  {
  }

  lemma PointsSum(o: Offer, k: Card, s: real, b: real)
    requires s == Share(Tokens(o.titleTokens), Tokens(k.tokens)) && b == Share(Tokens(o.brandTokens), Tokens(k.tokens))
    ensures Points(o, k) == 100.0 * s + (if SamePrice(o, k) then 20.0 else 0.0) + 5.0 * b
  {
  }

  lemma ScoreNumbers(c: Candidate, k: Card)
    ensures var n, m := |TokenSet(c.titleTokens)|,
            if TokenSet(c.brandTokens) == {} then 1 else |TokenSet(c.brandTokens)|;
            && ScoreDen(c) == n * m
            && ScoreNum(c, k) == 100 * (TitleHits(c, k) * m) + (if PriceMatch(c, k) then 20 * (n * m) else 0)
                                 + 5 * (BrandHits(c, k) * n)
  {
    hide TitleHits, BrandHits, PriceMatch, TokenSet;
  }

  lemma NoShare(held: set<string>)
    ensures Share({}, held) == 0.0
  {
  }

  lemma Million(x: real, den: int, num: int)
    requires x * (den as real) == num as real
    ensures (1000000.0 * x) * (den as real) == (1_000_000 * num) as real
  {
    assert (1000000.0 * x) * (den as real) == 1000000.0 * (x * (den as real));
  }

  /** A scored card's details are the rounded points and shares. */
  lemma ScoreIsPoints(o: Offer, k: Card)
    requires Fits(o, k)
    ensures Score(View(o), k)
            == Some(Detail(Rounded(Points(o, k)), Rounded(Share(Tokens(o.titleTokens), Tokens(k.tokens))),
                                             Rounded(Share(Tokens(o.brandTokens), Tokens(k.tokens))), SamePrice(o, k)))
  {
    hide View, Share, Points, Fits, RoundReal, RoundHalfEven, Eligible, ScoreNum, ScoreDen, TitleHits, BrandHits,
         Tokens;
    ScoredIffFits(o, k);
    TokensAre(o, k);
    var c := View(o);
    HitsPositive(c, k);
    ScoreDenPositive(c);
    assert Tokens(o.titleTokens) != {};
    RoundedPoints(o, k);
    RoundedTitle(o, k);
    RoundedBrand(o, k);
  }

  lemma RoundedPoints(o: Offer, k: Card)
    requires Tokens(o.titleTokens) != {} && ScoreDen(View(o)) > 0
    ensures RoundHalfEven(1_000_000 * ScoreNum(View(o), k), ScoreDen(View(o))) == Rounded(Points(o, k))
  {
    hide View, Points, RoundReal, RoundHalfEven, ScoreNum, ScoreDen;
    PointsTimesDen(o, k);
    Million(Points(o, k), ScoreDen(View(o)), ScoreNum(View(o), k));
    RoundRatio(1_000_000 * ScoreNum(View(o), k), ScoreDen(View(o)), 1000000.0 * Points(o, k));
  }

  lemma RoundedTitle(o: Offer, k: Card)
    requires Tokens(o.titleTokens) != {} && |TokenSet(View(o).titleTokens)| > 0
    ensures RoundHalfEven(1_000_000 * TitleHits(View(o), k), |TokenSet(View(o).titleTokens)|)
            == Rounded(Share(Tokens(o.titleTokens), Tokens(k.tokens)))
  {
    hide View, Share, Tokens, RoundReal, RoundHalfEven, TitleHits;
    var share, n := Share(Tokens(o.titleTokens), Tokens(k.tokens)), |TokenSet(View(o).titleTokens)|;
    TitleShare(o, k);
    Million(share, n, TitleHits(View(o), k));
    RoundRatio(1_000_000 * TitleHits(View(o), k), n, 1000000.0 * share);
  }

  lemma RoundedBrand(o: Offer, k: Card)
    ensures var m := |TokenSet(View(o).brandTokens)|;
            (if m == 0 then 0 else RoundHalfEven(1_000_000 * BrandHits(View(o), k), m))
            == Rounded(Share(Tokens(o.brandTokens), Tokens(k.tokens)))
  {
    hide View, Tokens, RoundReal, RoundHalfEven, BrandHits;
    TokensAre(o, k);
    var m := |TokenSet(View(o).brandTokens)|;
    var share := Share(Tokens(o.brandTokens), Tokens(k.tokens));
    if m == 0 {
      NoShare(Tokens(k.tokens));
      RoundingUnique(0.0, 0);
    } else {
      BrandShare(o, k, m);
      Million(share, m, BrandHits(View(o), k));
      RoundRatio(1_000_000 * BrandHits(View(o), k), m, 1000000.0 * share);
    }
  }
}
