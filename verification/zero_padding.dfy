/** Zero-padded numbers sort as text in numeric order. */
module ZeroPadding {
  import opened Foundations
  import opened Sorting

  /** Text order on three-digit numbers is numeric order. */
  lemma Pad3Order(a: nat, b: nat)
    requires a < 1000 && b < 1000
    ensures StrLe(Pad3(a), Pad3(b)) <==> a <= b
    ensures Pad3(a) == Pad3(b) ==> a == b
  {
    hide StrLe, Pad3, Digit;
    var h, t, u := SplitDigits(a);
    var h', t', u' := SplitDigits(b);
    ThreeLetters(Pad3(a), Pad3(b));
    DigitOrder(h, h');
    DigitOrder(t, t');
    DigitOrder(u, u');
  }

  lemma SplitDigits(n: nat) returns (h: nat, t: nat, u: nat)
    requires n < 1000
    ensures h < 10 && t < 10 && u < 10 && n == 100 * h + 10 * t + u
    ensures Pad3(n) == [Digit(h), Digit(t), Digit(u)]
  {
    h, t, u := n / 100, n / 10 % 10, n % 10;
  }

  lemma DigitOrder(a: nat, b: nat)
    requires a < 10 && b < 10
    ensures Digit(a) < Digit(b) <==> a < b
    ensures Digit(a) == Digit(b) <==> a == b
  {
  }

  /** Text order on three letters, spelled out. */
  lemma ThreeLetters(s: string, t: string)
    requires |s| == |t| == 3
    ensures StrLe(s, t) <==> s[0] < t[0] || (s[0] == t[0] && (s[1] < t[1] || (s[1] == t[1] && s[2] <= t[2])))
  {
    assert StrLe(s[1..], t[1..]) <==> s[1] < t[1] || (s[1] == t[1] && StrLe(s[1..][1..], t[1..][1..]));
    assert StrLe(s[1..][1..], t[1..][1..])
           <==> s[2] < t[2] || (s[2] == t[2] && StrLe(s[1..][1..][1..], t[1..][1..][1..]));
    assert s[1..][1..][1..] == [];
  }
}
