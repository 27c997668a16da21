/** _itoa, _lltoa and ptrtoa of util.c, on a character buffer in place. */
module Format {
  import opened Digits

  const TWO31: int := 0x8000_0000
  const TWO32: int := 0x1_0000_0000
  const TWO64: int := 0x1_0000_0000_0000_0000

  predicate IsInt32(val: int) { -TWO31 <= val < TWO31 }

  predicate IsInt64(val: int) { -(TWO64 / 2) <= val < TWO64 / 2 }

  /** The conversions between a 32-bit int and an unsigned int. */
  function Unsigned(val: int): nat { val % TWO32 }

  function Signed(u: nat): int
    requires u < TWO32
  {
    if u < TWO31 then u else u - TWO32
  }

  /** What _itoa writes. */
  function ItoaText(val: int, base: nat, notSigned: bool): (s: string)
    requires IsBase(base) && IsInt32(val)
  {
    if base == 10 && !notSigned && val < 0 then "-" + Canonical(Unsigned(-val), base)
      else Canonical(Unsigned(val), base)
  }

  /** What _lltoa writes in base 16: the dwords joined, then the filling. */
  function LltoaText(value: int, maxfill: bool): (s: string)
    requires IsInt64(value)
  {
    var hi, lo := (value % TWO64) / TWO32, value % TWO32;
    var s := if hi != 0 then Canonical(hi, 16) + Padded(Canonical(lo, 16), 8) else Canonical(lo, 16);
    if maxfill then Padded(s, 16) else s
  }

  function PtrText(val: int): (s: string)
    requires IsInt32(val)
  {
    Padded(Canonical(Unsigned(val), 16), 8)
  }

  /** Reading back what _itoa wrote gives the value: as a signed number in signed decimal, at the
      minimum too, where negation wraps; as an unsigned one otherwise. */
  lemma ItoaRoundTrip(val: int, base: nat, notSigned: bool)
    requires IsBase(base) && IsInt32(val)
    ensures ParseSigned(ItoaText(val, base, notSigned), base) == if base == 10 && !notSigned then val else Unsigned(val)
    ensures Signed(Unsigned(val)) == val
  {
    hide Canonical, Parse;
    CanonicalParses(Unsigned(val), base);
    CanonicalParses(Unsigned(-val), base);
    var s := ItoaText(val, base, notSigned);
    if base == 10 && !notSigned && val < 0 {
      assert s[1..] == Canonical(Unsigned(-val), base);
    } else {
      assert IsDigit(s[0], base);
    }
  }

  /** A numeral as people write it: digits only, and a leading zero only in "0" itself. */
  predicate PlainNumeral(s: string, base: nat) {
    Numeral(s, base) && (s[0] != '0' || s == "0")
  }

  /** The form of the text, which fixes it: in signed decimal a negative number is a minus sign and
      the numeral of its magnitude, which does not start with a zero; all else is one numeral,
      without a sign, of the unsigned value. No other text has that form and that value. */
  lemma ItoaForm(val: int, base: nat, notSigned: bool, s: string)
    requires IsBase(base) && IsInt32(val)
    ensures s == ItoaText(val, base, notSigned) <==>
            if base == 10 && !notSigned && val < 0
            then |s| > 1 && s[0] == '-' && s[1] != '0' && Numeral(s[1..], base) && Parse(s[1..], base) == -val
            else PlainNumeral(s, base) && Parse(s, base) == val % 0x1_0000_0000
  {
    hide Canonical, Parse, Numeral;
    if base == 10 && !notSigned && val < 0 {
      CanonicalOnly(-val, base, if s == [] then [] else s[1..]);
      assert |s| > 0 && s[0] == '-' ==> s == "-" + s[1..];
      assert Unsigned(-val) == -val;
    } else {
      CanonicalOnly(Unsigned(val), base, s);
    }
  }

  /** The canonical numeral is the only plain one of its value, and is "0" for 0 alone. */
  lemma CanonicalOnly(v: nat, base: nat, s: string)
    requires IsBase(base)
    ensures s == Canonical(v, base) <==> PlainNumeral(s, base) && Parse(s, base) == v
    ensures v > 0 ==> Canonical(v, base)[0] != '0'
  {
    CanonicalParses(v, base);
    if v == 0 { OneDigit(0, base); }
    if PlainNumeral(s, base) { CanonicalUnique(s, base); }
  }

  /** It needs at most 11 characters in decimal and 8 in hexadecimal. */
  lemma ItoaLength(val: int, base: nat, notSigned: bool)
    requires IsBase(base) && IsInt32(val)
    ensures |ItoaText(val, base, notSigned)| <= if base == 10 then 11 else 8
    ensures base == 16 ==> |ItoaText(val, base, notSigned)| <= 8
  {
    PowersOfSixteen();
    PowersOfTen();
    if base == 10 {
      CanonicalLength(Unsigned(val), 10, 10);
      CanonicalLength(Unsigned(-val), 10, 10);
    } else {
      CanonicalLength(Unsigned(val), 16, 8);
    }
  }

  lemma PowersOfSixteen()
    ensures Power(16, 8) == TWO32 && Power(16, 16) == TWO64
  {
    assert Power(16, 2) == 16 * Power(16, 1) == 16 * (16 * Power(16, 0)) == 0x100;
    assert Power(16, 4) == 16 * (16 * Power(16, 2)) == 0x1_0000;
    assert Power(16, 6) == 16 * (16 * Power(16, 4)) == 0x100_0000;
    assert Power(16, 8) == 16 * (16 * Power(16, 6)) == TWO32;
    assert Power(16, 10) == 16 * (16 * Power(16, 8));
    assert Power(16, 12) == 16 * (16 * Power(16, 10));
    assert Power(16, 14) == 16 * (16 * Power(16, 12));
    assert Power(16, 16) == 16 * (16 * Power(16, 14));
  }

  lemma PowersOfTen()
    ensures Power(10, 10) == 10_000_000_000
  {
    assert Power(10, 2) == 10 * Power(10, 1) == 10 * (10 * Power(10, 0)) == 100;
    assert Power(10, 4) == 10 * (10 * Power(10, 2)) == 10_000;
    assert Power(10, 6) == 10 * (10 * Power(10, 4)) == 1_000_000;
    assert Power(10, 8) == 10 * (10 * Power(10, 6)) == 100_000_000;
    assert Power(10, 10) == 10 * (10 * Power(10, 8));
  }

  /** Joining the dwords gives the one numeral of the 64-bit value: the lower dword's zeros are
      kept, and none come first. */
  lemma LltoaJoins(value: int)
    requires IsInt64(value)
    ensures LltoaText(value, false) == Canonical(value % TWO64, 16)
  {
    var u := value % TWO64;
    var hi, lo := u / TWO32, value % TWO32;
    assert u == hi * TWO32 + lo;
    if hi != 0 {
      var a, b := Canonical(hi, 16), Padded(Canonical(lo, 16), 8);
      PowersOfSixteen();
      CanonicalParses(hi, 16);
      CanonicalParses(lo, 16);
      CanonicalLength(lo, 16, 8);
      PaddedParses(Canonical(lo, 16), 8, 16);
      JoinParses(a, b, 16);
      CanonicalUnique(a + b, 16);
    }
  }

  /** With maxfill there are exactly 16 digits, and they read back as the 64-bit value. */
  lemma LltoaFills(value: int)
    requires IsInt64(value)
    ensures |LltoaText(value, true)| == 16 && Numeral(LltoaText(value, true), 16)
    ensures Parse(LltoaText(value, true), 16) == Parse(LltoaText(value, false), 16) == value % TWO64
  {
    LltoaJoins(value);
    PowersOfSixteen();
    var s := Canonical(value % TWO64, 16);
    CanonicalParses(value % TWO64, 16);
    CanonicalLength(value % TWO64, 16, 16);
    PaddedParses(s, 16, 16);
    assert LltoaText(value, true) == Padded(s, 16);
  }

  /** ptrtoa writes exactly 8 digits that read back as the address. */
  lemma PtrRoundTrip(val: int)
    requires IsInt32(val)
    ensures |PtrText(val)| == 8 && Numeral(PtrText(val), 16) && Parse(PtrText(val), 16) == Unsigned(val)
  {
    PowersOfSixteen();
    CanonicalParses(Unsigned(val), 16);
    CanonicalLength(Unsigned(val), 16, 8);
    PaddedParses(Canonical(Unsigned(val), 16), 8, 16);
  }

  /** The buffer after writing a string and its end mark at index at. */
  ghost predicate Wrote(was: seq<char>, now: seq<char>, at: nat, text: string) {
    at + |text| < |was| == |now| && forall i: nat {:trigger now[i]} :: i < |now| ==>
      now[i] == if at <= i < at + |text| then text[i - at] else if i == at + |text| then '\0' else was[i]
  }

  /** The digits d stand in the buffer from index first on, last digit first. */
  ghost predicate Backward(now: seq<char>, first: nat, d: string) {
    first + |d| <= |now| && forall x: nat {:trigger now[x]} ::
      first <= x < first + |d| ==> now[x] == d[first + |d| - 1 - x]
  }

  /** Nothing outside the n characters from index first on has changed. */
  ghost predicate SameElse(was: seq<char>, now: seq<char>, first: nat, n: nat) {
    |now| == |was| && forall x: nat {:trigger now[x]} :: x < |now| && !(first <= x < first + n) ==> now[x] == was[x]
  }

  /** The digit loop: least significant first. */
  method PutDigits(buf: array<char>, str: nat, value: nat, base: nat) returns (p: nat)
    requires IsBase(base) && str + |Canonical(value, base)| < buf.Length
    modifies buf
    ensures p == str + |Canonical(value, base)|
    ensures SameElse(old(buf[..]), buf[..], str, p - str) && Backward(buf[..], str, Canonical(value, base))
  {
    hide Canonical, DigitChar, Backward;
    ghost var d, was := Canonical(value, base), buf[..];
    NoDigits(buf[..], str, d);
    p := str;
    var v: nat, done := value, false;
    assert d[..|d|] == d;
    while !done
      invariant str <= p <= str + |d| && SameElse(was, buf[..], str, p - str)
      invariant Backward(buf[..], str, d[|d| - (p - str)..])
      invariant done ==> p == str + |d|
      invariant !done ==> p < str + |d| && Canonical(v, base) == d[..|d| - (p - str)]
      decreases str + |d| - p, !done
    {
      ghost var n := |d| - (p - str);
      NextDigit(d, v, base, n);
      assert v % base < 16;
      p := PutDigit(buf, str, p, v % base, d[n..]);
      v := v / base;
      assert [d[n - 1]] + d[n..] == d[n - 1..];
      done := v == 0;
    }
    assert d[0..] == d;
  }

  lemma NoDigits(now: seq<char>, first: nat, d: string)
    requires first <= |now|
    ensures Backward(now, first, d[|d|..])
  {
  }

  /** The last of the first n digits is the remainder, and the ones before it the quotient. */
  lemma NextDigit(d: string, v: nat, base: nat, n: nat)
    requires IsBase(base) && 0 < n <= |d| && Canonical(v, base) == d[..n]
    ensures d[n - 1] == DigitChar(v % base)
    ensures v / base == 0 ==> n == 1
    ensures v / base != 0 ==> n > 1 && Canonical(v / base, base) == d[..n - 1]
  {
    assert d[..n][n - 1] == d[n - 1];
    if v < base {
      assert v / base == 0 && v % base == v && d[..n] == [DigitChar(v)];
    } else {
      assert v / base >= 1 && d[..n] == Canonical(v / base, base) + [DigitChar(v % base)];
      assert d[..n - 1] == d[..n][..n - 1];
    }
  }

  method PutDigit(buf: array<char>, str: nat, p: nat, rem: nat, ghost done: string) returns (p': nat)
    requires rem < 16 && p == str + |done| < buf.Length && Backward(buf[..], str, done)
    modifies buf
    ensures p' == p + 1 && Backward(buf[..], str, [DigitChar(rem)] + done) && SameElse(old(buf[..]), buf[..], p, 1)
  {
    buf[p] := if rem < 10 then '0' + rem as char else 'A' + (rem - 10) as char;
    p' := p + 1;
  }

  /** The reversal loop. */
  method Reverse(buf: array<char>, first: nat, last: nat, ghost d: string)
    requires d != [] && last == first + |d| - 1 < buf.Length && Backward(buf[..], first, d)
    modifies buf
    ensures SameElse(old(buf[..]), buf[..], first, |d|)
    ensures forall x: nat {:trigger buf[x]} :: first <= x <= last ==> buf[x] == d[x - first]
  {
    var str, p := first, last;
    while p > str
      invariant first <= str <= p + 1 <= last + 1 && str - first == last - p
      invariant SameElse(old(buf[..]), buf[..], first, |d|)
      invariant forall x: nat {:trigger buf[x]} ::
        first <= x <= last ==> buf[x] == if x < str || x > p then d[x - first] else d[last - x]
    {
      buf[p], buf[str] := buf[str], buf[p];
      str, p := str + 1, p - 1;
    }
  }

  /** _itoa; for any other base it returns with nothing written. */
  method Itoa(buf: array<char>, at: nat, val: int, base: nat, notSigned: bool)
    requires IsInt32(val) && (IsBase(base) ==> at + |ItoaText(val, base, notSigned)| < buf.Length)
    modifies buf
    ensures !IsBase(base) ==> buf[..] == old(buf[..])
    ensures IsBase(base) ==> Wrote(old(buf[..]), buf[..], at, ItoaText(val, base, notSigned))
  {
    if !(base == 10 || base == 16) {
      return;
    }
    if base != 16 && !notSigned && val < 0 {
      buf[at] := '-';
      PutNumeral(buf, at + 1, (-val) % TWO32, base);
    } else {
      PutNumeral(buf, at, val % TWO32, base);
    }
  }

  /** The digits of an unsigned value, reversed in place, and the end mark. */
  method PutNumeral(buf: array<char>, str: nat, value: nat, base: nat)
    requires IsBase(base) && str + |Canonical(value, base)| < buf.Length
    modifies buf
    ensures Wrote(old(buf[..]), buf[..], str, Canonical(value, base))
  {
    hide Canonical;
    var p := PutDigits(buf, str, value, base);
    buf[p] := '\0';
    Reverse(buf, str, p - 1, Canonical(value, base));
  }

  /** A string whose end mark comes first at its end starts at index at. */
  ghost predicate Holds(now: seq<char>, at: nat, text: string) {
    && at + |text| < |now| && now[at + |text|] == '\0'
    && forall x: nat {:trigger now[x]} :: at <= x < at + |text| ==> now[x] == text[x - at] && now[x] != '\0'
  }

  lemma WroteHolds(was: seq<char>, now: seq<char>, at: nat, text: string, base: nat)
    requires Wrote(was, now, at, text) && Numeral(text, base) && IsBase(base)
    ensures Holds(now, at, text)
  {
    forall x: nat | at <= x < at + |text| ensures now[x] != '\0' { assert IsDigit(text[x - at], base); }
  }

  method StrLen(buf: array<char>, at: nat, ghost text: string) returns (len: nat)
    requires Holds(buf[..], at, text)
    ensures len == |text|
  {
    len := 0;
    while buf[at + len] != '\0'
      invariant len <= |text|
      decreases |text| - len
    {
      len := len + 1;
    }
  }

  /** The padding loops: move the string to the right end of the field, last character first, and
      fill up with zeros from the left. */
  method PadLeft(buf: array<char>, at: nat, n: nat, width: nat, ghost text: string)
    requires Holds(buf[..], at, text) && n == |text| < width && at + width < buf.Length
    modifies buf
    ensures Wrote(old(buf[..]), buf[..], at, Padded(text, width))
  {
    var tmp := MoveRight(buf, at, n, width, text);
    var moved := StrLen(buf, tmp, text);
    FillZeros(buf, at, width - moved);
  }

  /** The shift, which overlaps its source; tmp is where the string starts then. */
  method MoveRight(buf: array<char>, at: nat, n: nat, width: nat, ghost text: string) returns (tmp': nat)
    requires Holds(buf[..], at, text) && n == |text| < width && at + width < buf.Length
    modifies buf
    ensures tmp' == at + width - n && Holds(buf[..], tmp', text)
    ensures forall x: nat {:trigger buf[x]} :: x < buf.Length && !(at <= x <= at + width) ==> buf[x] == old(buf[x])
  {
    var tmp: int, p: int, len: nat := at + width - 1, at + n - 1, n;
    buf[tmp + 1] := '\0';
    while len > 0
      invariant len <= n && p == at + len - 1 && tmp == at + width - 1 - (n - len)
      invariant buf[at + width] == '\0'
      invariant forall x: nat {:trigger buf[x]} :: at <= x < at + len ==> buf[x] == text[x - at] && buf[x] != '\0'
      invariant forall x: nat {:trigger buf[x]} ::
        tmp < x < at + width ==> buf[x] == text[x - (at + width - n)] && buf[x] != '\0'
      invariant forall x: nat {:trigger buf[x]} :: x < buf.Length && !(at <= x <= at + width) ==> buf[x] == old(buf[x])
    {
      buf[tmp] := buf[p];
      tmp, p, len := tmp - 1, p - 1, len - 1;
    }
    tmp' := tmp + 1;
  }

  method FillZeros(buf: array<char>, at: nat, n: nat)
    requires at + n <= buf.Length
    modifies buf
    ensures forall x: nat {:trigger buf[x]} ::
      x < buf.Length ==> buf[x] == if at <= x < at + n then '0' else old(buf[x])
  {
    var p: nat, len: nat := at, n;
    while len > 0
      invariant len <= n && p == at + (n - len)
      invariant forall x: nat {:trigger buf[x]} :: x < buf.Length ==> buf[x] == if at <= x < p then '0' else old(buf[x])
    {
      buf[p] := '0';
      p, len := p + 1, len - 1;
    }
  }

  /** _lltoa as the 32-bit kernel builds it: nothing is written in base 10. */
  method Lltoa(buf: array<char>, at: nat, value: int, base: nat, maxfill: bool)
    requires IsInt64(value) && (base == 16 ==> at + |LltoaText(value, maxfill)| < buf.Length)
    modifies buf
    ensures base != 16 ==> buf[..] == old(buf[..])
    ensures base == 16 ==> Wrote(old(buf[..]), buf[..], at, LltoaText(value, maxfill))
  {
    if !(base == 10 || base == 16) {
      return;
    }
    if base == 10 {
      return;
    }
    JoinDwords(buf, at, value);
    if maxfill {
      LltoaFits(value);
      WroteHolds(old(buf[..]), buf[..], at, LltoaText(value, false), 16);
      var len := StrLen(buf, at, LltoaText(value, false));
      if len < 16 {
        PadLeft(buf, at, len, 16, LltoaText(value, false));
      }
    }
  }

  lemma LltoaFits(value: int)
    requires IsInt64(value)
    ensures Numeral(LltoaText(value, false), 16) && |LltoaText(value, false)| <= 16
    ensures LltoaText(value, true) == Padded(LltoaText(value, false), 16)
  {
    LltoaJoins(value);
    PowersOfSixteen();
    CanonicalParses(value % TWO64, 16);
    CanonicalLength(value % TWO64, 16, 16);
  }

  /** The two dwords, the lower one padded when the upper one is there. */
  method JoinDwords(buf: array<char>, at: nat, value: int)
    requires IsInt64(value) && at + |LltoaText(value, false)| < buf.Length
    modifies buf
    ensures Wrote(old(buf[..]), buf[..], at, LltoaText(value, false))
  {
    hide Canonical;
    Dwords(value);
    var upper, p: nat := value / TWO32, at;
    if upper != 0 {
      p := UpperDword(buf, at, upper);
    }
    LowerDword(buf, p, if value % TWO32 < TWO31 then value % TWO32 else value % TWO32 - TWO32, upper != 0);
  }

  /** The upper dword, and where its digits end. */
  method UpperDword(buf: array<char>, at: nat, upper: int) returns (p: nat)
    requires IsInt32(upper) && at + |Canonical(Unsigned(upper), 16)| < buf.Length
    modifies buf
    ensures Wrote(old(buf[..]), buf[..], at, Canonical(Unsigned(upper), 16))
    ensures p == at + |Canonical(Unsigned(upper), 16)|
  {
    CanonicalParses(Unsigned(upper), 16);
    hide Canonical;
    Itoa(buf, at, upper, 16, true);
    WroteHolds(old(buf[..]), buf[..], at, Canonical(Unsigned(upper), 16), 16);
    var len := StrLen(buf, at, Canonical(Unsigned(upper), 16));
    p := at + len;
  }

  method LowerDword(buf: array<char>, p: nat, lower: int, pad: bool)
    requires IsInt32(lower)
    requires var s := Canonical(Unsigned(lower), 16); |s| <= 8 && p + (if pad then 8 else |s|) < buf.Length
    modifies buf
    ensures var s := Canonical(Unsigned(lower), 16); Wrote(old(buf[..]), buf[..], p, if pad then Padded(s, 8) else s)
  {
    ghost var s := Canonical(Unsigned(lower), 16);
    CanonicalParses(Unsigned(lower), 16);
    hide Canonical;
    Itoa(buf, p, lower, 16, true);
    if pad {
      WroteHolds(old(buf[..]), buf[..], p, s, 16);
      var len := StrLen(buf, p, s);
      if len != 8 {
        PadLeft(buf, p, len, 8, s);
      }
    }
  }

  /** The dwords as ints. */
  lemma Dwords(value: int)
    requires IsInt64(value)
    ensures var upper, lower := value / TWO32, Signed(value % TWO32);
      && IsInt32(upper) && IsInt32(lower) && (upper != 0 <==> value % TWO64 / TWO32 != 0)
      && Unsigned(upper) == value % TWO64 / TWO32 && Unsigned(lower) == value % TWO32
      && |Canonical(Unsigned(lower), 16)| <= 8
  {
    var q, r := value / TWO32, value % TWO32;
    assert value == q * TWO32 + r;
    assert value % TWO64 == if value < 0 then value + TWO64 else value;
    assert value % TWO64 / TWO32 == if value < 0 then q + TWO32 else q;
    PowersOfSixteen();
    CanonicalLength(r, 16, 8);
  }

  /** ptrtoa */
  method PtrToA(buf: array<char>, at: nat, val: int)
    requires IsInt32(val) && at + 8 < buf.Length
    modifies buf
    ensures Wrote(old(buf[..]), buf[..], at, PtrText(val))
  {
    ItoaLength(val, 16, true);
    CanonicalParses(Unsigned(val), 16);
    Itoa(buf, at, val, 16, true);
    WroteHolds(old(buf[..]), buf[..], at, ItoaText(val, 16, true), 16);
    var len := StrLen(buf, at, ItoaText(val, 16, true));
    if len < 8 {
      PadLeft(buf, at, len, 8, ItoaText(val, 16, true));
    }
  }
}
