/** Numerals: what a string of digits means, and the canonical numeral of a number. */
module Digits {

  predicate IsBase(base: nat) {
    base == 10 || base == 16
  }

  function DigitChar(d: nat): char
    requires d < 16
  {
    if d < 10 then '0' + d as char else 'A' + (d - 10) as char
  }

  function DigitValue(c: char): int {
    if '0' <= c <= '9' then c as int - '0' as int else c as int - 'A' as int + 10
  }

  lemma DigitChars(d: nat)
    requires d < 16
    ensures DigitChar(d) == "0123456789ABCDEF"[d] && DigitValue("0123456789ABCDEF"[d]) == d
  {
  }

  predicate IsDigit(c: char, base: nat) {
    0 <= DigitValue(c) < base && ('0' <= c <= '9' || 'A' <= c <= 'F')
  }

  /** The value of a numeral, most significant digit first. */
  function Parse(s: string, base: nat): int {
    if s == [] then 0 else Parse(s[..|s| - 1], base) * base + DigitValue(s[|s| - 1])
  }

  /** An optional minus sign. */
  function ParseSigned(s: string, base: nat): int {
    if s != [] && s[0] == '-' then -Parse(s[1..], base) else Parse(s, base)
  }

  predicate Numeral(s: string, base: nat) {
    s != [] && forall i :: 0 <= i < |s| ==> IsDigit(s[i], base)
  }

  /** The numeral of v without leading zeros. */
  function Canonical(v: nat, base: nat): (s: string)
    requires IsBase(base)
    ensures s != []
    decreases v
  {
    if v < base then [DigitChar(v)] else Canonical(v / base, base) + [DigitChar(v % base)]
  }

  lemma {:induction false} CanonicalParses(v: nat, base: nat)
    requires IsBase(base)
    ensures Numeral(Canonical(v, base), base) && Parse(Canonical(v, base), base) == v
    ensures v > 0 ==> Canonical(v, base)[0] != '0'
    decreases v
  {
    var s := Canonical(v, base);
    if v < base {
      assert s[..0] == [] && Parse(s, base) == Parse([], base) * base + DigitValue(s[0]);
    } else {
      CanonicalParses(v / base, base);
      assert s[..|s| - 1] == Canonical(v / base, base);
    }
  }

  /** No two numbers have the same numeral, and a numeral without a leading zero is canonical. */
  lemma {:induction false} CanonicalUnique(s: string, base: nat)
    requires IsBase(base) && Numeral(s, base) && (s[0] != '0' || |s| == 1)
    ensures Parse(s, base) >= 0 && s == Canonical(Parse(s, base), base)
    ensures s[0] != '0' ==> Parse(s, base) > 0
    decreases |s|
  {
    hide IsDigit, DigitChar, DigitValue, Canonical;
    var t, c := s[..|s| - 1], s[|s| - 1];
    DigitBack(c, base);
    assert s == t + [c];
    if t == [] {
      assert Parse(s, base) == Parse([], base) * base + DigitValue(c) == DigitValue(c);
      OneDigit(DigitValue(c), base);
    } else {
      CanonicalUnique(t, base);
      AppendDigit(Parse(t, base), DigitValue(c), base);
    }
  }

  lemma DigitBack(c: char, base: nat)
    requires IsBase(base) && IsDigit(c, base)
    ensures 0 <= DigitValue(c) < base && DigitChar(DigitValue(c)) == c && (c != '0' ==> DigitValue(c) > 0)
  {
  }

  lemma OneDigit(d: nat, base: nat)
    requires IsBase(base) && d < base
    ensures Canonical(d, base) == [DigitChar(d)]
  {
  }

  /** One more digit. */
  lemma AppendDigit(v: nat, d: nat, base: nat)
    requires IsBase(base) && v > 0 && d < base
    ensures v * base + d > 0 && Canonical(v * base + d, base) == Canonical(v, base) + [DigitChar(d)]
  {
    LastDigit(v, d, base);
  }

  lemma LastDigit(v: nat, d: nat, base: nat)
    requires IsBase(base) && d < base
    ensures (v * base + d) / base == v && (v * base + d) % base == d && (v > 0 ==> v * base + d >= base)
  {
    if base == 10 {
      assert (v * 10 + d) / 10 == v;
    } else {
      assert (v * 16 + d) / 16 == v;
    }
  }

  function Power(base: nat, n: nat): nat {
    if n == 0 then 1 else base * Power(base, n - 1)
  }

  /** A number below base^n has a numeral of at most n digits. */
  lemma {:induction false} CanonicalLength(v: nat, base: nat, n: nat)
    requires IsBase(base) && n > 0 && v < Power(base, n)
    ensures |Canonical(v, base)| <= n
    decreases n
  {
    if v >= base {
      assert Power(base, 1) == base * Power(base, 0);
      assert v < base * Power(base, n - 1);
      CanonicalLength(v / base, base, n - 1);
    }
  }

  function Zeros(n: nat): (s: string)
    ensures |s| == n && forall i :: 0 <= i < n ==> s[i] == '0'
  {
    seq(n, i => '0')
  }

  /** Padding with zeros on the left. */
  function Padded(s: string, width: nat): (r: string)
    ensures |s| <= width ==> |r| == width
  {
    if |s| < width then Zeros(width - |s|) + s else s
  }

  lemma {:induction false} ZerosKeepValue(s: string, n: nat, base: nat)
    ensures Parse(Zeros(n) + s, base) == Parse(s, base)
    decreases |s| + n
  {
    if s == [] {
      if n > 0 {
        assert (Zeros(n) + s)[..n - 1] == Zeros(n - 1) + s;
        ZerosKeepValue(s, n - 1, base);
      } else {
        assert Zeros(0) + s == s;
      }
    } else {
      assert (Zeros(n) + s)[..n + |s| - 1] == Zeros(n) + s[..|s| - 1];
      ZerosKeepValue(s[..|s| - 1], n, base);
    }
  }

  lemma PaddedParses(s: string, width: nat, base: nat)
    requires Numeral(s, base) && IsBase(base)
    ensures Numeral(Padded(s, width), base) && Parse(Padded(s, width), base) == Parse(s, base)
  {
    if |s| < width { ZerosKeepValue(s, width - |s|, base); }
  }

  /** Joining numerals: the upper one counts base^n times, for n digits of the lower. */
  lemma {:induction false} JoinParses(a: string, b: string, base: nat)
    ensures Parse(a + b, base) == Parse(a, base) * Power(base, |b|) + Parse(b, base)
    decreases |b|
  {
    if b == [] {
      assert a + b == a;
    } else {
      var c := b[..|b| - 1];
      assert (a + b)[..|a + b| - 1] == a + c;
      JoinParses(a, c, base);
      Distribute(Parse(a, base), Power(base, |c|), Parse(c, base), DigitValue(b[|b| - 1]), base);
    }
  }

  lemma Distribute(x: int, p: int, y: int, d: int, b: int)
    ensures (x * p + y) * b + d == x * (b * p) + (y * b + d)
  {
    assert (x * p + y) * b == x * p * b + y * b;
    assert x * p * b == x * (b * p);
  }
}
