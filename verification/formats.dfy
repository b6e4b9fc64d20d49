/** Formats of the texts that pass between the tools: stripped text, identifiers and digests. */
module Formats {
  import opened Foundations

  /** The characters Python counts as white space. */
  predicate IsSpace(c: char) {
    || '\t' <= c <= '\r' || '\U{1c}' <= c <= ' '
    || c == '\U{85}' || c == '\U{a0}' || c == '\U{1680}' || '\U{2000}' <= c <= '\U{200a}'
    || c == '\U{2028}' || c == '\U{2029}' || c == '\U{202f}' || c == '\U{205f}' || c == '\U{3000}'
  }

  function TrimLeft(s: string): (r: string)
    ensures r == [] || !IsSpace(r[0])
  {
    if s != [] && IsSpace(s[0]) then TrimLeft(s[1..]) else s
  }

  function TrimRight(s: string): (r: string)
    ensures r == [] || !IsSpace(r[|r| - 1])
    ensures r <= s
  {
    if s != [] && IsSpace(s[|s| - 1]) then TrimRight(s[..|s| - 1]) else s
  }

  /** Python's `strip()`. */
  function Strip(s: string): (r: string)
    ensures r == [] || (!IsSpace(r[0]) && !IsSpace(r[|r| - 1]))
  {
    TrimRight(TrimLeft(s))
  }

  lemma StripIdempotent(s: string)
    ensures Strip(Strip(s)) == Strip(s)
  {
  }

  predicate IsLowerOrDigit(c: char) {
    'a' <= c <= 'z' || IsDigit(c)
  }

  /** 4 to 160 characters: a lower-case letter or digit, then those and `._:-`. */
  predicate ValidId(s: string) {
    && 4 <= |s| <= 160
    && IsLowerOrDigit(s[0])
    && forall i | 0 <= i < |s| :: IsLowerOrDigit(s[i]) || s[i] in "._:-"
  }

  predicate IsHex(s: string) {
    forall i | 0 <= i < |s| :: IsDigit(s[i]) || 'a' <= s[i] <= 'f'
  }

  predicate IsSha256(s: string) {
    |s| == 64 && IsHex(s)
  }

  /** t occurs in s, Python's `t in s`. */
  predicate Contains(s: string, t: string) {
    t <= s || (s != [] && Contains(s[1..], t))
  }

  predicate EndsWith(s: string, suffix: string) {
    |s| >= |suffix| && s[|s| - |suffix|..] == suffix
  }

  function LowerChar(c: char): char {
    if 'A' <= c <= 'Z' then (c as int + 32) as char else c
  }

  /** Lower case of ASCII text. */
  function Lower(s: string): (r: string)
    ensures |r| == |s| && forall i | 0 <= i < |s| :: r[i] == LowerChar(s[i])
  {
    seq(|s|, i requires 0 <= i < |s| => LowerChar(s[i]))
  }

  /** Identifiers of the older baselines must not be used again. */
  predicate NotLegacy(s: string) {
    !Contains(s, "a30") && !Contains(s, "a31") && !Contains(s, "49+41")
  }

  predicate NonBlank(s: string) {
    Strip(s) != ""
  }

  lemma {:induction false} TrimKeepsFirst(s: string)
    requires s != [] && !IsSpace(s[0])
    ensures TrimRight(s) != []
  {
    if IsSpace(s[|s| - 1]) { TrimKeepsFirst(s[..|s| - 1]); }
  }

  lemma NonSpaceStart(s: string)
    requires s != [] && !IsSpace(s[0])
    ensures NonBlank(s)
  {
    assert TrimLeft(s) == s;
    TrimKeepsFirst(s);
  }

  lemma StripExact(s: string)
    requires s == [] || (!IsSpace(s[0]) && !IsSpace(s[|s| - 1]))
    ensures Strip(s) == s
  {
  }

  lemma {:induction false} TrimLeftSkips(a: string, s: string)
    requires forall c | c in a :: IsSpace(c)
    ensures TrimLeft(a + s) == TrimLeft(s)
  {
    hide IsSpace;
    if a == [] {
      assert a + s == s;
    } else {
      assert (a + s)[0] in a && (a + s)[1..] == a[1..] + s;
      TrimLeftSkips(a[1..], s);
    }
  }

  lemma {:induction false} TrimRightSkips(s: string, b: string)
    requires forall c | c in b :: IsSpace(c)
    ensures TrimRight(s + b) == TrimRight(s)
  {
    hide IsSpace;
    if b == [] {
      assert s + b == s;
    } else {
      var n := |b| - 1;
      assert (s + b)[|s| + n] in b && (s + b)[..|s| + n] == s + b[..n];
      TrimRightSkips(s, b[..n]);
    }
  }

  /** White space around a text is taken off, and nothing else. */
  lemma StripTakesOff(a: string, s: string, b: string)
    requires (forall c | c in a :: IsSpace(c)) && forall c | c in b :: IsSpace(c)
    requires s == [] || (!IsSpace(s[0]) && !IsSpace(s[|s| - 1]))
    ensures Strip(a + s + b) == s
  {
    hide IsSpace;
    assert a + s + b == a + (s + b);
    TrimLeftSkips(a, s + b);
    if s == [] {
      assert s + b == b + [] && TrimLeft([]) == [];
      TrimLeftSkips(b, []);
    } else {
      assert TrimLeft(s + b) == s + b;
      TrimRightSkips(s, b);
    }
  }

  /** White space by code point: five controls, four separators, the space, and sixteen signs beyond ASCII. */
  lemma SpaceCodes(c: char)
    ensures IsSpace(c) <==>
            var n := c as int;
            || 9 <= n <= 13 || 28 <= n <= 32 || n == 133 || n == 160 || n == 5760 || 8192 <= n <= 8202
            || n == 8232 || n == 8233 || n == 8239 || n == 8287 || n == 12288
  {
  }

  lemma LowerAlphabet()
    ensures Lower("ABCDEFGHIJKLMNOPQRSTUVWXYZ") == "abcdefghijklmnopqrstuvwxyz"
    ensures forall c | !('A' <= c <= 'Z') :: LowerChar(c) == c
  {
  }
}
