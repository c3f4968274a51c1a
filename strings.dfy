/**
 * The string operations of the JavaScript runtime that the report engine
 * relies on: `join`, `split` on one character, `replace` of the first
 * occurrence, integer and fixed-point number rendering (`String(n)`,
 * `toFixed`) and decimal parsing (`parseFloat`).
 */
module Strings {
  import opened Wrappers

  /** `parts.join(sep)`. */
  function Join(parts: seq<string>, sep: string): string {
    if |parts| == 0 then ""
    else if |parts| == 1 then parts[0]
    else parts[0] + sep + Join(parts[1..], sep)
  }

  lemma JoinTwo(a: string, b: string, sep: string)
    ensures Join([a, b], sep) == a + sep + b
  {
    assert [a, b][1..] == [b];
  }

  lemma JoinThree(a: string, b: string, c: string, sep: string)
    ensures Join([a, b, c], sep) == a + sep + b + sep + c
  {
    assert [a, b, c][1..] == [b, c];
    JoinTwo(b, c, sep);
  }

  /** `s.split(c)` for a one-character separator: never empty; `""` splits to `[""]`. */
  function Split(s: string, c: char): (r: seq<string>)
    ensures |r| >= 1
  {
    if s == [] then [""]
    else
      var rest := Split(s[1..], c);
      if s[0] == c then [""] + rest else [[s[0]] + rest[0]] + rest[1..]
  }

  lemma {:induction false} SplitPrefix(a: string, rest: string, c: char)
    requires c !in a
    ensures Split(a + rest, c) == [a + Split(rest, c)[0]] + Split(rest, c)[1..]
    decreases |a|
  {
    if a != [] {
      assert (a + rest)[1..] == a[1..] + rest;
      SplitPrefix(a[1..], rest, c);
      assert [a[0]] + (a[1..] + Split(rest, c)[0]) == a + Split(rest, c)[0];
    } else {
      assert a + rest == rest;
      var r := Split(rest, c);
      assert r == [r[0]] + r[1..];
      assert a + r[0] == r[0];
    }
  }

  /** Splitting what `join` produced gives back the parts, when no part holds the separator. */
  lemma {:induction false} SplitJoin(parts: seq<string>, c: char)
    requires |parts| >= 1
    requires forall i | 0 <= i < |parts| :: c !in parts[i]
    ensures Split(Join(parts, [c]), c) == parts
    decreases |parts|
  {
    if |parts| == 1 {
      SplitPrefix(parts[0], "", c);
      assert Split("", c) == [""];
      assert Join(parts, [c]) == parts[0];
      assert parts[0] + "" == parts[0];
      assert parts == [parts[0]];
    } else {
      var tail := Join(parts[1..], [c]);
      SplitJoin(parts[1..], c);
      assert parts[0] + [c] + tail == parts[0] + ([c] + tail);
      assert Join(parts, [c]) == parts[0] + ([c] + tail);
      SplitPrefix(parts[0], [c] + tail, c);
      assert ([c] + tail)[1..] == tail;
      assert Split([c] + tail, c) == [""] + Split(tail, c);
      assert parts[0] + "" == parts[0];
      assert parts == [parts[0]] + parts[1..];
    }
  }

  /** `s.replace(c, '')`: drop the first occurrence of `c`, if any. */
  function ReplaceFirst(s: string, c: char): string {
    if s == [] then []
    else if s[0] == c then s[1..]
    else [s[0]] + ReplaceFirst(s[1..], c)
  }

  lemma {:induction false} ReplaceFirstSuffix(t: string, c: char)
    requires c !in t
    ensures ReplaceFirst(t + [c], c) == t
    decreases |t|
  {
    if t != [] {
      assert (t + [c])[1..] == t[1..] + [c];
      ReplaceFirstSuffix(t[1..], c);
    }
  }

  // ---------------------------------------------------------------------
  // Decimal digits
  // ---------------------------------------------------------------------

  predicate IsDigit(ch: char) {
    '0' <= ch <= '9'
  }

  function DigitChar(d: nat): char
    requires d < 10
  {
    "0123456789"[d]
  }

  function DigitValue(ch: char): nat
    requires IsDigit(ch)
  {
    (ch as int - '0' as int) as nat
  }

  ghost predicate AllDigits(s: string) {
    forall i | 0 <= i < |s| :: IsDigit(s[i])
  }

  function Pow10(d: nat): (p: nat)
    ensures p >= 1
  {
    if d == 0 then 1 else 10 * Pow10(d - 1)
  }

  /** The number a string of decimal digits denotes. */
  function DigitsValue(s: string): nat
    requires AllDigits(s)
  {
    if s == [] then 0 else DigitsValue(s[..|s| - 1]) * 10 + DigitValue(s[|s| - 1])
  }

  /** `String(n)` for a natural number: its decimal digits, no leading zeros. */
  function NatText(n: nat): (s: string)
    ensures |s| >= 1 && AllDigits(s)
  {
    if n < 10 then [DigitChar(n)] else NatText(n / 10) + [DigitChar(n % 10)]
  }

  /** `String(n)` for an integer. */
  function IntText(n: int): string {
    if n < 0 then "-" + NatText(-n) else NatText(n)
  }

  lemma {:induction false} NatTextValue(n: nat)
    ensures DigitsValue(NatText(n)) == n
    decreases n
  {
    if n >= 10 {
      NatTextValue(n / 10);
      var s := NatText(n);
      assert s[..|s| - 1] == NatText(n / 10);
      assert DigitValue(DigitChar(n % 10)) == n % 10;
    } else {
      assert DigitValue(DigitChar(n)) == n;
    }
  }

  lemma {:induction false} DigitsValueAppend(a: string, b: string)
    requires AllDigits(a) && AllDigits(b)
    ensures AllDigits(a + b)
    ensures DigitsValue(a + b) == DigitsValue(a) * Pow10(|b|) + DigitsValue(b)
    decreases |b|
  {
    if b == [] {
      assert a + b == a;
    } else {
      var b' := b[..|b| - 1];
      assert (a + b)[..|a + b| - 1] == a + b';
      DigitsValueAppend(a, b');
      assert DigitsValue(a + b) == DigitsValue(a + b') * 10 + DigitValue(b[|b| - 1]);
      ShiftDigit(DigitsValue(a), Pow10(|b'|), DigitsValue(b'), DigitValue(b[|b| - 1]));
    }
  }

  lemma ShiftDigit(v: int, p: int, w: int, c: int)
    ensures (v * p + w) * 10 + c == v * (10 * p) + (w * 10 + c)
  {
  }

  function Zeros(k: nat): (s: string)
    ensures |s| == k && AllDigits(s)
  {
    if k == 0 then "" else "0" + Zeros(k - 1)
  }

  lemma {:induction false} ZerosValue(k: nat)
    ensures DigitsValue(Zeros(k)) == 0
    decreases k
  {
    if k > 0 {
      ZerosValue(k - 1);
      assert Zeros(k) == Zeros(k - 1) + "0" by {
        ZerosShift(k);
      }
      assert Zeros(k)[..k - 1] == Zeros(k - 1);
    }
  }

  lemma {:induction false} ZerosShift(k: nat)
    requires k > 0
    ensures Zeros(k) == Zeros(k - 1) + "0"
    decreases k
  {
    if k > 1 {
      ZerosShift(k - 1);
    }
  }

  /** Left-pad with zeros to at least `width` digits. */
  function PadDigits(s: string, width: nat): (r: string)
    requires AllDigits(s)
    ensures AllDigits(r) && |r| >= width && |r| >= |s|
  {
    if |s| >= width then s else Zeros(width - |s|) + s
  }

  lemma LeadingZerosValue(s: string, k: nat)
    requires AllDigits(s)
    ensures DigitsValue(Zeros(k) + s) == DigitsValue(s)
  {
    DigitsValueAppend(Zeros(k), s);
    ZerosValue(k);
  }

  /** Padding does not change the number the digits denote. */
  lemma PadDigitsValue(s: string, width: nat)
    requires AllDigits(s)
    ensures DigitsValue(PadDigits(s, width)) == DigitsValue(s)
  {
    if |s| < width {
      LeadingZerosValue(s, width - |s|);
    }
  }

  // ---------------------------------------------------------------------
  // Number.prototype.toFixed on exact rationals
  // ---------------------------------------------------------------------

  /**
   * The integer nearest to `x`, ties going up: the `n` of `toFixed`, which
   * picks the larger of two equally close candidates.
   */
  function RoundHalfUp(x: real): int {
    (x + 0.5).Floor
  }

  /** The scaled integer `toFixed(d)` prints for a non-negative `x`. */
  function Scaled(x: real, d: nat): int {
    RoundHalfUp(x * Pow10(d) as real)
  }

  /** The digits of the rounded magnitude, at least `d + 1` of them. */
  function FixedDigits(x: real, d: nat): (g: string)
    requires x >= 0.0
    ensures AllDigits(g) && |g| >= d + 1
  {
    PadDigits(NatText(Scaled(x, d)), d + 1)
  }

  /** `x.toFixed(d)`: a minus sign for negatives, then the digits of the rounded magnitude with `d` of them after a point. */
  function FixedText(x: real, d: nat): string
    decreases if x < 0.0 then 1 else 0
  {
    if x < 0.0 then "-" + FixedText(-x, d)
    else
      var g := FixedDigits(x, d);
      if d == 0 then g else g[..|g| - d] + "." + g[|g| - d..]
  }

  /** The digits of a fixed-point text denote the scaled, rounded value. */
  lemma FixedDigitsValue(x: real, d: nat)
    requires x >= 0.0
    ensures DigitsValue(FixedDigits(x, d)) == Scaled(x, d)
  {
    var n := Scaled(x, d);
    NatTextValue(n);
    PadDigitsValue(NatText(n), d + 1);
  }

  /** With at least one decimal the text holds a point, so it is never a bare integer such as `"0"`. */
  lemma FixedTextHasPoint(x: real, d: nat)
    requires d > 0
    ensures '.' in FixedText(x, d)
    decreases if x < 0.0 then 1 else 0
  {
    if x < 0.0 {
      FixedTextHasPoint(-x, d);
      assert FixedText(x, d) == "-" + FixedText(-x, d);
    } else {
      var g := FixedDigits(x, d);
      var t := g[..|g| - d] + "." + g[|g| - d..];
      assert t[|g| - d] == '.';
    }
  }

  /** The text holds only digits, the point and the sign: no comma, quote, colon, percent sign or line break. */
  lemma FixedTextChars(x: real, d: nat)
    ensures forall i | 0 <= i < |FixedText(x, d)| :: IsDigit(FixedText(x, d)[i]) || FixedText(x, d)[i] in ".-"
    decreases if x < 0.0 then 1 else 0
  {
    if x < 0.0 {
      FixedTextChars(-x, d);
      assert FixedText(x, d) == "-" + FixedText(-x, d);
    }
  }

  // ---------------------------------------------------------------------
  // parseFloat, for plain decimal notation
  // ---------------------------------------------------------------------

  /** A number written in decimal: `units / 10^scale`. */
  datatype Decimal = Decimal(units: int, scale: nat) {
    function Value(): real {
      units as real / Pow10(scale) as real
    }
  }

  /** The length of the run of digits that starts `s`. */
  function DigitRun(s: string): (n: nat)
    ensures n <= |s| && AllDigits(s[..n])
    ensures n < |s| ==> !IsDigit(s[n])
  {
    if s == [] || !IsDigit(s[0]) then 0
    else
      var n := 1 + DigitRun(s[1..]);
      assert s[..n] == [s[0]] + s[1..][..n - 1];
      n
  }

  lemma {:induction false} DigitRunOf(a: string, rest: string)
    requires AllDigits(a)
    requires rest == [] || !IsDigit(rest[0])
    ensures DigitRun(a + rest) == |a|
    decreases |a|
  {
    if a == [] {
      assert a + rest == rest;
    } else {
      assert (a + rest)[1..] == a[1..] + rest;
      DigitRunOf(a[1..], rest);
    }
  }

  /** The value of an unsigned decimal prefix: digits, optionally a point and more digits; `None` (NaN) when no digit starts it. */
  function ParseUnsigned(s: string): Option<Decimal> {
    var i := DigitRun(s);
    ParseAfterWhole(s[..i], s[i..])
  }

  /** The value of the whole digits `whole` followed by `rest`, which may start with a point and the fraction digits. */
  function ParseAfterWhole(whole: string, rest: string): Option<Decimal>
    requires AllDigits(whole)
  {
    if |rest| > 0 && rest[0] == '.' then
      var f := DigitRun(rest[1..]);
      if |whole| == 0 && f == 0 then None
      else
        var frac := rest[1..][..f];
        Some(Decimal(DigitsValue(whole + frac), f))
    else if |whole| == 0 then None
    else Some(Decimal(DigitsValue(whole), 0))
  }

  /**
   * `parseFloat(s)` for text in plain decimal notation: an optional sign,
   * then the longest decimal prefix; `None` stands for NaN.
   */
  function ParseFloat(s: string): Option<Decimal> {
    if |s| > 0 && s[0] == '-' then
      match ParseUnsigned(s[1..])
      case Some(v) => Some(Decimal(-v.units, v.scale))
      case None => None
    else if |s| > 0 && s[0] == '+' then ParseUnsigned(s[1..])
    else ParseUnsigned(s)
  }

  /** The value `x.toFixed(d)` stands for: `x` rounded to `d` decimals. */
  function Rounded(x: real, d: nat): Decimal {
    Decimal(Scaled(x, d), d)
  }

  /** Reading back a non-negative fixed-point text gives the rounded value: `parseFloat(x.toFixed(d))`. */
  lemma ParseFixedText(x: real, d: nat)
    requires x >= 0.0
    ensures ParseFloat(FixedText(x, d)) == Some(Rounded(x, d))
  {
    var g := FixedDigits(x, d);
    FixedDigitsValue(x, d);
    var t := FixedText(x, d);
    assert t[0] == g[0];
    if d == 0 {
      ParseWhole(g);
    } else {
      var a := g[..|g| - d];
      var b := g[|g| - d..];
      assert g == a + b;
      ParsePointed(a, b);
    }
  }

  lemma ParseWhole(a: string)
    requires AllDigits(a) && |a| >= 1
    ensures ParseFloat(a) == Some(Decimal(DigitsValue(a), 0))
  {
    DigitRunOf(a, "");
    assert a + "" == a;
    assert a[..|a|] == a;
    assert a[|a|..] == "";
  }

  lemma ParsePointed(a: string, b: string)
    requires AllDigits(a) && AllDigits(b) && |a| >= 1
    ensures AllDigits(a + b)
    ensures ParseFloat(a + "." + b) == Some(Decimal(DigitsValue(a + b), |b|))
  {
    var t := a + ("." + b);
    assert a + "." + b == t;
    assert t[0] == a[0];
    DigitRunOf(a, "." + b);
    assert t[..|a|] == a;
    assert t[|a|..] == "." + b;
    assert ParseUnsigned(t) == ParseAfterWhole(a, "." + b);
    ParseFraction(a, b);
  }

  lemma ParseFraction(a: string, b: string)
    requires AllDigits(a) && AllDigits(b) && |a| >= 1
    ensures AllDigits(a + b)
    ensures ParseAfterWhole(a, "." + b) == Some(Decimal(DigitsValue(a + b), |b|))
  {
    assert ("." + b)[1..] == b;
    DigitRunOf(b, "");
    assert b + "" == b;
    assert b[..|b|] == b;
  }
}
