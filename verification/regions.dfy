/** Rectangles on a page, in millionths of its width and height. */
module Regions {
  import opened Foundations

  const ONE: int := 1_000_000

  /** A fraction of the page rounded to six decimals, counted in millionths. */
  function Millionths(r: real): int {
    RoundReal(r * 1_000_000.0)
  }

  datatype RawRegion = RawRegion(x: real, y: real, width: real, height: real)

  datatype Region = Region(x: int, y: int, width: int, height: int)

  predicate RegionOk(r: Region) {
    && 0 <= r.x <= ONE && 0 <= r.y <= ONE && 0 < r.width <= ONE && 0 < r.height <= ONE
    && r.x + r.width <= ONE + 1 && r.y + r.height <= ONE + 1
  }

  function RoundRegion(raw: RawRegion): Region {
    Region(Millionths(raw.x), Millionths(raw.y), Millionths(raw.width), Millionths(raw.height))
  }

  function NormalizeRegion(raw: RawRegion): Option<Region> {
    if RegionOk(RoundRegion(raw)) then Some(RoundRegion(raw)) else None
  }

  function AsFractions(r: Region): RawRegion {
    RawRegion(r.x as real / 1_000_000.0, r.y as real / 1_000_000.0, r.width as real / 1_000_000.0,
              r.height as real / 1_000_000.0)
  }

  lemma RoundRealExact(n: int)
    ensures RoundReal(n as real) == n
  {
  }

  lemma MillionthsExact(n: int)
    ensures Millionths(n as real / 1_000_000.0) == n
  {
    hide RoundReal;
    RoundRealExact(n);
    assert n as real / 1_000_000.0 * 1_000_000.0 == n as real;
  }

  /** Rounding a rounded region again changes nothing. */
  lemma RegionIdempotent(raw: RawRegion)
    requires NormalizeRegion(raw).Some?
    ensures NormalizeRegion(AsFractions(NormalizeRegion(raw).value)) == NormalizeRegion(raw)
  {
    hide Millionths;
    var r := NormalizeRegion(raw).value;
    MillionthsExact(r.x);
    MillionthsExact(r.y);
    MillionthsExact(r.width);
    MillionthsExact(r.height);
  }

  /** Two numbers with sum at most an even integer still have at most that sum once rounded half to even. */
  lemma RoundedSum(a: real, b: real, n: int)
    requires a + b <= n as real && n % 2 == 0
    ensures RoundReal(a) + RoundReal(b) <= n
  {
    var p, q := RoundReal(a), RoundReal(b);
    assert p + q > n ==> p as real - a == 0.5 && q as real - b == 0.5;
  }

  lemma RoundedWithin(a: real)
    requires 0.0 <= a <= 1.0
    ensures 0 <= Millionths(a) <= ONE
  {
  }

  /** A rectangle inside the page is accepted unless a side rounds to zero, and then keeps inside the page exactly:
    * the tolerance of one millionth is never used. */
  lemma InsidePageStaysInside(raw: RawRegion)
    requires 0.0 <= raw.x && 0.0 <= raw.y && 0.0 <= raw.width && 0.0 <= raw.height
    requires raw.x + raw.width <= 1.0 && raw.y + raw.height <= 1.0
    ensures NormalizeRegion(raw).Some? <==> Millionths(raw.width) != 0 && Millionths(raw.height) != 0
    ensures var r := RoundRegion(raw); r.x + r.width <= ONE && r.y + r.height <= ONE
  {
    RoundedWithin(raw.x);
    RoundedWithin(raw.y);
    RoundedWithin(raw.width);
    RoundedWithin(raw.height);
    RoundedSum(raw.x * 1_000_000.0, raw.width * 1_000_000.0, ONE);
    RoundedSum(raw.y * 1_000_000.0, raw.height * 1_000_000.0, ONE);
  }
}
