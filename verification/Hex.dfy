/** Hexadecimal text. Strings are ASCII: a character is a byte. */
module Hex {

  import opened Options
  import opened Ascii

  const TWO_96: nat := 0x1_0000_0000_0000_0000_0000_0000
  const TWO_127: nat := 0x8000_0000_0000_0000_0000_0000_0000_0000
  const TWO_128: nat := 0x1_0000_0000_0000_0000_0000_0000_0000_0000

  function StripPrefix(s: string, prefix: string): Option<string> {
    if prefix <= s then Some(s[|prefix|..]) else None
  }

  predicate IsDigit(c: char) {
    '0' <= c <= '9' || 'a' <= c <= 'f' || 'A' <= c <= 'F'
  }

  function Digit(c: char): (d: nat)
    requires IsDigit(c)
    ensures d < 16
  {
    if c <= '9' then c as int - '0' as int
    else if c <= 'F' then c as int - 'A' as int + 10
    else c as int - 'a' as int + 10
  }

  predicate AllDigits(s: string) {
    forall i :: 0 <= i < |s| ==> IsDigit(s[i])
  }

  /** The number that a string of hex digits denotes. */
  function Value(s: string): nat
    requires AllDigits(s)
  {
    if s == [] then 0 else Value(s[..|s| - 1]) * 16 + Digit(s[|s| - 1])
  }

  function Pow16(n: nat): nat {
    if n == 0 then 1 else 16 * Pow16(n - 1)
  }

  /** `s` is `v` in exactly `width` hex digits of either case. */
  ghost predicate Spells(s: string, v: nat, width: nat) {
    |s| == width && AllDigits(s) && Value(s) == v
  }

  function DigitChar(d: nat): (c: char)
    requires d < 16
    ensures IsDigit(c) && Digit(c) == d
  {
    if d < 10 then '0' + d as char else 'a' + (d - 10) as char
  }

  /** The canonical spelling: zero-padded, lower case. */
  function Encode(v: nat, width: nat): (s: string)
    ensures |s| == width && AllDigits(s)
    ensures v < Pow16(width) ==> Value(s) == v
  {
    if width == 0 then "" else Encode(v / 16, width - 1) + [DigitChar(v % 16)]
  }

  lemma {:induction false} ValueIsBounded(s: string)
    requires AllDigits(s)
    ensures Value(s) < Pow16(|s|)
  {
    if s != [] {
      ValueIsBounded(s[..|s| - 1]);
    }
  }

  lemma Shift(a: nat, p: nat)
    ensures a * (16 * p) == a * p * 16
    ensures a > 0 ==> a * p >= p
  {
  }

  lemma ShiftSum(a: nat, d: nat, p: nat)
    requires p >= 1
    ensures (a * 16 + d) * p == a * (16 * p) + d * p
    ensures (a * 16 + d) * p >= a * 16 + d
  {
  }

  lemma {:induction false} ValueOfConcat(a: string, b: string)
    requires AllDigits(a) && AllDigits(b)
    ensures AllDigits(a + b) && Value(a + b) == Value(a) * Pow16(|b|) + Value(b)
  {
    if b == [] {
      assert a + b == a;
    } else {
      var b' := b[..|b| - 1];
      ValueOfConcat(a, b');
      assert (a + b)[..|a + b| - 1] == a + b';
      assert (a + b)[|a + b| - 1] == b[|b| - 1];
      Shift(Value(a), Pow16(|b'|));
    }
  }

  /** Two strings of as many digits agree up to letter case exactly when they denote the same number. */
  lemma {:induction false} SameValueSameText(a: string, b: string)
    requires AllDigits(a) && AllDigits(b) && |a| == |b|
    ensures EqIgnoreAsciiCase(a, b) <==> Value(a) == Value(b)
  {
    if a != [] {
      var n := |a| - 1;
      SameValueSameText(a[..n], b[..n]);
      assert Digit(a[n]) == Digit(b[n]) <==> LowerChar(a[n]) == LowerChar(b[n]);
      if EqIgnoreAsciiCase(a[..n], b[..n]) && LowerChar(a[n]) == LowerChar(b[n]) {
        forall i | 0 <= i < |a| ensures LowerChar(a[i]) == LowerChar(b[i]) {
          if i < n {
            assert a[i] == a[..n][i] && b[i] == b[..n][i];
          }
        }
      }
      if EqIgnoreAsciiCase(a, b) {
        assert EqIgnoreAsciiCase(a[..n], b[..n]);
      }
    }
  }

  /** The low digits of a word denote its value when the high digits are zero. */
  lemma LowDigits(s: string, v: nat, k: nat)
    requires AllDigits(s) && k <= |s| && Value(s) == v && v < Pow16(|s| - k)
    ensures Spells(s[k..], v, |s| - k)
  {
    assert s == s[..k] + s[k..];
    ValueOfConcat(s[..k], s[k..]);
    Shift(Value(s[..k]), Pow16(|s| - k));
  }

  lemma {:induction false} Pow16Sum(a: nat, b: nat)
    ensures Pow16(a + b) == Pow16(a) * Pow16(b)
  {
    if a > 0 {
      Pow16Sum(a - 1, b);
    }
  }

  lemma PowersOfTwo()
    ensures Pow16(24) == TWO_96
    ensures Pow16(32) == TWO_128 == 2 * TWO_127
    ensures Pow16(40) == 0x1_0000_0000_0000_0000_0000_0000_0000_0000_0000_0000
  {
    assert Pow16(8) == 0x1_0000_0000;
    Pow16Sum(16, 8);
    Pow16Sum(8, 8);
    Pow16Sum(16, 16);
    Pow16Sum(32, 8);
  }

  // Parsing

  /** `u128::from_str_radix(_, 16)` after its sign, with checked arithmetic. */
  function Accumulate(acc: nat, s: string): Option<nat>
    decreases s
  {
    if s == [] then Some(acc)
    else if !IsDigit(s[0]) || acc * 16 + Digit(s[0]) >= TWO_128 then None
    else Accumulate(acc * 16 + Digit(s[0]), s[1..])
  }

  /** A leading plus sign is accepted; a minus sign is not a digit. */
  function FromStrRadix16(s: string): Option<nat> {
    if s == [] || s == "+" then None
    else Accumulate(0, if s[0] == '+' then s[1..] else s)
  }

  lemma {:induction false} AccumulateIsValue(acc: nat, s: string)
    requires acc < TWO_128
    ensures Accumulate(acc, s) ==
            if AllDigits(s) && acc * Pow16(|s|) + Value(s) < TWO_128
            then Some(acc * Pow16(|s|) + Value(s)) else None
    decreases s
  {
    if s != [] && IsDigit(s[0]) {
      var d, rest := Digit(s[0]), s[1..];
      assert AllDigits(s) <==> AllDigits(rest) by {
        assert AllDigits(rest) ==> forall i :: 0 < i < |s| ==> s[i] == rest[i - 1];
      }
      if AllDigits(rest) {
        assert s == [s[0]] + rest;
        assert Value([s[0]]) == d;
        ValueOfConcat([s[0]], rest);
        PowIsPositive(|rest|);
        ShiftSum(acc, d, Pow16(|rest|));
      }
      if acc * 16 + d < TWO_128 {
        AccumulateIsValue(acc * 16 + d, rest);
      }
    }
  }

  lemma PowIsPositive(n: nat)
    ensures Pow16(n) >= 1
  {
  }

  /** A number is parsed exactly when, after an optional plus sign, there are only hex digits,
      at least one, and their value fits 128 bits. */
  lemma ParseIsValue(s: string)
    ensures var digits := if s != [] && s[0] == '+' then s[1..] else s;
      FromStrRadix16(s) ==
      if digits != [] && AllDigits(digits) && Value(digits) < TWO_128 then Some(Value(digits)) else None
  {
    var digits := if s != [] && s[0] == '+' then s[1..] else s;
    AccumulateIsValue(0, digits);
  }

  /** What the parser reads: hex digits, at least one, after an optional plus sign, for a
      number of at most 128 bits. */
  ghost predicate Parses(text: string, n: nat) {
    exists digits: string ::
      && (text == digits || text == "+" + digits)
      && digits != "" && AllDigits(digits) && Value(digits) == n < 0x1_0000_0000_0000_0000_0000_0000_0000_0000
  }

  lemma ParserReads(text: string, n: nat)
    ensures FromStrRadix16(text) == Some(n) <==> Parses(text, n)
  {
    ParseIsValue(text);
    var digits := if text != [] && text[0] == '+' then text[1..] else text;
    assert text == digits || text == "+" + digits;
    forall other: string | (text == other || text == "+" + other) && other != "" && AllDigits(other)
      ensures other == digits
    {
      if text == other {
        assert IsDigit(other[0]);
      }
    }
  }
}
