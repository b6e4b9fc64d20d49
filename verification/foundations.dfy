/** Values shared by the models: optional and fallible results, digests, zero-padded numbers, rounding. */
module Foundations {

  datatype Option<+T> = None | Some(value: T)

  datatype Result<+T, +E> = Ok(value: T) | Err(error: E)

  /** SHA-256 over a canonical encoding. A constructor is injective and otherwise uninterpreted. */
  datatype Sha<+T> = Sha(content: T)

  /** Rounds num/den to the nearest integer, a tie going to the even neighbour, as Python's round does. */
  function RoundHalfEven(num: int, den: int): (r: int)
    requires den > 0
    ensures -den <= 2 * (r * den - num) <= den
    ensures 2 * (r * den - num) == den || 2 * (r * den - num) == -den ==> r % 2 == 0
  {
    var q := num / den;
    var rest := num % den;
    assert num == q * den + rest;
    assert (q + 1) * den == q * den + den;
    if 2 * rest < den || (2 * rest == den && q % 2 == 0) then q else q + 1
  }

  lemma MulLt(a: int, b: int, d: int)
    requires a < b && d >= 0
    ensures a * d + d <= b * d
  {
    assert (b - a - 1) * d >= 0;
    assert (b - a - 1) * d == b * d - a * d - d;
  }

  /** Rounding keeps bounds that are integers. */
  lemma RoundHalfEvenBounds(num: int, den: int, lo: int, hi: int)
    requires den > 0 && lo * den <= num <= hi * den
    ensures lo <= RoundHalfEven(num, den) <= hi
  {
    var r := RoundHalfEven(num, den);
    if r < lo {
      MulLt(r, lo, den);
    } else if r > hi {
      MulLt(hi, r, den);
    }
  }

  /** An integer is its own rounding, whatever the denominator. */
  lemma RoundHalfEvenExact(n: int, den: int)
    requires den > 0
    ensures RoundHalfEven(n * den, den) == n
  {
    RoundHalfEvenBounds(n * den, den, n, n);
  }

  function Digit(n: nat): (c: char)
    requires n < 10
  {
    ('0' as int + n) as char
  }

  /** The `:03d` format of a number below 1000. */
  function Pad3(n: nat): (s: string)
    requires n < 1000
    ensures |s| == 3
  {
    [Digit(n / 100), Digit(n / 10 % 10), Digit(n % 10)]
  }

  predicate IsDigit(c: char) {
    '0' <= c <= '9'
  }

  function DigitValue(c: char): (n: nat)
    requires IsDigit(c)
    ensures n < 10
  {
    (c as int) - ('0' as int)
  }

  /** Python's `int()` on exactly three ASCII digits; None when the text is anything else. */
  function Parse3(s: string): Option<nat>
  {
    if |s| == 3 && IsDigit(s[0]) && IsDigit(s[1]) && IsDigit(s[2])
    then Some(100 * DigitValue(s[0]) + 10 * DigitValue(s[1]) + DigitValue(s[2]))
    else None
  }

  /** Three-digit text and the numbers below 1000 are in bijection. */
  lemma Pad3RoundTrip(n: nat, s: string)
    requires n < 1000
    ensures Parse3(Pad3(n)) == Some(n)
    ensures Parse3(s) == Some(n) ==> s == Pad3(n)
  {
    assert n == 100 * (n / 100) + 10 * (n / 10 % 10) + n % 10;
    if Parse3(s) == Some(n) {
      DigitsOf(DigitValue(s[0]), DigitValue(s[1]), DigitValue(s[2]));
      assert s == [s[0], s[1], s[2]];
    }
  }

  /** A number below 1000 is its three decimal digits. */
  lemma DigitsOf(h: nat, t: nat, u: nat)
    requires h < 10 && t < 10 && u < 10
    ensures Pad3(100 * h + 10 * t + u) == [Digit(h), Digit(t), Digit(u)]
  {
    var n := 100 * h + 10 * t + u;
    assert n / 10 == 10 * h + t;
  }

  /** Nearest integer to a real number, a tie going to the even neighbour. */
  function RoundReal(r: real): (n: int)
    ensures -0.5 <= n as real - r <= 0.5
    ensures n as real - r == 0.5 || n as real - r == -0.5 ==> n % 2 == 0
  {
    var q := r.Floor;
    var rest := r - q as real;
    if rest < 0.5 || (rest == 0.5 && q % 2 == 0) then q else q + 1
  }
}
