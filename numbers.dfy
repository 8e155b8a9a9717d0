/**
 * Python's `int(token)` and `float(token)` on the tokens of an exercise line,
 * for the grammar the bot's users type: an optional sign, ASCII digits and,
 * for a weight, an optional decimal point with a fraction. A weight is kept
 * exactly, as a decimal mantissa and scale, rather than as a binary float.
 */
module Numbers {
  import opened Wrappers
  import Text
  import Seqs

  predicate IsDigit(c: char) {
    '0' <= c <= '9'
  }

  predicate AllDigits(s: string) {
    forall i :: 0 <= i < |s| ==> IsDigit(s[i])
  }

  function DigitValue(c: char): nat
    requires IsDigit(c)
  {
    (c as int) - ('0' as int)
  }

  function DigitChar(d: nat): (c: char)
    requires d < 10
    ensures IsDigit(c) && DigitValue(c) == d
  {
    ('0' as int + d) as char
  }

  /** The number a run of decimal digits denotes. */
  function DigitsValue(s: string): nat
    requires AllDigits(s)
  {
    if s == [] then 0 else DigitsValue(s[..|s| - 1]) * 10 + DigitValue(s[|s| - 1])
  }

  function Pow10(k: nat): (p: nat)
    ensures p >= 1
  {
    if k == 0 then 1 else 10 * Pow10(k - 1)
  }

  /** Python's `int(s)`: `[+-]? digit+`. */
  function ParseInt(s: string): Option<int> {
    if |s| > 0 && (s[0] == '-' || s[0] == '+') then
      if |s| > 1 && AllDigits(s[1..]) then
        var v: int := DigitsValue(s[1..]);
        Some(if s[0] == '-' then -v else v)
      else None
    else if |s| > 0 && AllDigits(s) then Some(DigitsValue(s))
    else None
  }

  /** A weight: `mantissa / 10^scale`, with `scale` the number of digits typed after the point. */
  datatype Decimal = Decimal(mantissa: int, scale: nat)

  const Zero := Decimal(0, 0)

  /** The test `weight > 0` by which bot.py (line 191) picks how a weight is shown. */
  predicate IsPositive(d: Decimal) {
    d.mantissa > 0
  }

  /** Python's `float(s)` without sign: `digit+ ('.' digit*)?` or `'.' digit+`. */
  function ParseUnsignedDecimal(s: string): Option<Decimal> {
    var parts := Text.SplitOn(s, '.');
    if |parts| == 1 then
      if s != [] && AllDigits(s) then Some(Decimal(DigitsValue(s), 0)) else None
    else if |parts| == 2 && AllDigits(parts[0]) && AllDigits(parts[1]) && |parts[0]| + |parts[1]| > 0 then
      Some(Decimal(DigitsValue(parts[0] + parts[1]), |parts[1]|))
    else None
  }

  /** Python's `float(s)`: an optional sign, then an unsigned decimal. */
  function ParseFloat(s: string): Option<Decimal> {
    if |s| > 0 && (s[0] == '-' || s[0] == '+') then
      match ParseUnsignedDecimal(s[1..])
      case None => None
      case Some(d) => Some(if s[0] == '-' then Decimal(-d.mantissa, d.scale) else d)
    else ParseUnsignedDecimal(s)
  }

  // ---------------------------------------------------------------------------
  // Writing numbers back as text

  /** The decimal digits of `n`, without leading zeros. */
  function NatToString(n: nat): (s: string)
    ensures |s| >= 1 && AllDigits(s)
    ensures n > 0 ==> s[0] != '0'
  {
    if n < 10 then [DigitChar(n)] else NatToString(n / 10) + [DigitChar(n % 10)]
  }

  function IntToString(i: int): string {
    if i < 0 then "-" + NatToString(-i) else NatToString(i)
  }

  function Zeros(k: nat): (z: string)
    ensures |z| == k && AllDigits(z)
  {
    seq(k, _ => '0')
  }

  /** The digits of `n` with the last `scale` of them behind a decimal point (at least one digit before it). */
  function UnsignedDecimalString(n: nat, scale: nat): string {
    if scale == 0 then NatToString(n)
    else
      var padded := Padded(n, scale);
      padded[..|padded| - scale] + "." + padded[|padded| - scale..]
  }

  function Padded(n: nat, scale: nat): string {
    var digits := NatToString(n);
    if |digits| > scale then digits else Zeros(scale + 1 - |digits|) + digits
  }

  function DecimalToString(d: Decimal): string {
    if d.mantissa < 0 then "-" + UnsignedDecimalString(-d.mantissa, d.scale)
    else UnsignedDecimalString(d.mantissa, d.scale)
  }

  /** The characters a written number is made of. */
  predicate NumberChars(s: string) {
    forall i :: 0 <= i < |s| ==> IsDigit(s[i]) || s[i] == '-' || s[i] == '.'
  }

  // ---------------------------------------------------------------------------
  // Round trips

  /** Appending digits shifts the value: `value(a + b) == value(a) * 10^|b| + value(b)`. */
  lemma {:induction false} DigitsValueAppend(a: string, b: string)
    requires AllDigits(a) && AllDigits(b)
    ensures AllDigits(a + b)
    ensures DigitsValue(a + b) == DigitsValue(a) * Pow10(|b|) + DigitsValue(b)
  {
    assert AllDigits(a + b);
    if b == [] {
      assert a + b == a;
    } else {
      var b' := b[..|b| - 1];
      var d := DigitValue(b[|b| - 1]);
      assert (a + b)[..|a + b| - 1] == a + b';
      DigitsValueAppend(a, b');
      var x, p := DigitsValue(a), Pow10(|b'|);
      calc {
        DigitsValue(a + b);
        DigitsValue(a + b') * 10 + d;
        (x * p + DigitsValue(b')) * 10 + d;
        { Shift(x, p, DigitsValue(b'), d); }
        x * (10 * p) + (DigitsValue(b') * 10 + d);
        x * Pow10(|b|) + DigitsValue(b);
      }
    }
  }

  /** A regrouping of the arithmetic, stated apart to keep the calculation above small for the solver. */
  lemma Shift(x: int, p: int, y: int, d: int)
    ensures (x * p + y) * 10 + d == x * (10 * p) + (y * 10 + d)
  {
  }

  lemma {:induction false} DigitsValueZeros(k: nat)
    ensures DigitsValue(Zeros(k)) == 0
  {
    if k > 0 {
      assert Zeros(k)[..k - 1] == Zeros(k - 1);
      DigitsValueZeros(k - 1);
    }
  }

  /** Writing a natural number and reading its digits gives the number back. */
  lemma {:induction false} NatToStringValue(n: nat)
    ensures DigitsValue(NatToString(n)) == n
  {
    if n >= 10 {
      var s := NatToString(n);
      assert s[..|s| - 1] == NatToString(n / 10);
      NatToStringValue(n / 10);
    }
  }

  /** `int(str(i)) == i`. */
  lemma IntRoundTrip(i: int)
    ensures ParseInt(IntToString(i)) == Some(i)
  {
    if i < 0 {
      NatToStringValue(-i);
      var s := IntToString(i);
      assert s[1..] == NatToString(-i);
    } else {
      NatToStringValue(i);
    }
  }

  /** The digits of `n`, left-padded with zeros so that more than `scale` of them are there. */
  lemma {:induction false} PaddedDigits(n: nat, scale: nat)
    ensures var p := Padded(n, scale); AllDigits(p) && DigitsValue(p) == n && |p| > scale
  {
    var digits := NatToString(n);
    NatToStringValue(n);
    if |digits| <= scale {
      ZerosInFront(scale + 1 - |digits|, digits);
    }
  }

  /** Leading zeros do not change the value of a run of digits. */
  lemma ZerosInFront(k: nat, digits: string)
    requires AllDigits(digits)
    ensures AllDigits(Zeros(k) + digits) && DigitsValue(Zeros(k) + digits) == DigitsValue(digits)
  {
    var z := Zeros(k);
    var p := Pow10(|digits|);
    DigitsValueAppend(z, digits);
    DigitsValueZeros(k);
    assert DigitsValue(z) * p == 0;
  }

  lemma AllDigitsNoDot(s: string)
    requires AllDigits(s)
    ensures '.' !in s
  {
  }

  /** Two runs of digits around a point split back at the point. */
  lemma DotSplit(ip: string, fp: string)
    requires AllDigits(ip) && AllDigits(fp)
    ensures Text.SplitOn(ip + "." + fp, '.') == [ip, fp]
  {
    AllDigitsNoDot(ip);
    AllDigitsNoDot(fp);
    Text.SplitOnAroundSep(ip, '.', fp);
    Text.SplitOnNoSep(ip, '.');
    Text.SplitOnNoSep(fp, '.');
  }

  /** The characters of two digit runs around a point. */
  lemma PointedChars(ip: string, fp: string)
    requires AllDigits(ip) && AllDigits(fp)
    ensures NumberChars(ip + "." + fp)
  {
    var s := ip + "." + fp;
    forall i | 0 <= i < |s| ensures IsDigit(s[i]) || s[i] == '-' || s[i] == '.' {
      if i < |ip| {
        assert s[i] == ip[i];
      } else if i > |ip| {
        assert s[i] == fp[i - |ip| - 1];
      }
    }
  }

  /** A minus sign in front of a number's characters. */
  lemma MinusChars(u: string)
    requires NumberChars(u)
    ensures NumberChars("-" + u) && ("-" + u)[1..] == u
  {
    var s := "-" + u;
    forall i | 0 <= i < |s| ensures IsDigit(s[i]) || s[i] == '-' || s[i] == '.' {
      if i > 0 {
        assert s[i] == u[i - 1];
      }
    }
  }

  lemma UnsignedDecimalRoundTrip(n: nat, scale: nat)
    ensures ParseUnsignedDecimal(UnsignedDecimalString(n, scale)) == Some(Decimal(n, scale))
    ensures var s := UnsignedDecimalString(n, scale); |s| > 0 && IsDigit(s[0]) && NumberChars(s)
  {
    if scale == 0 {
      var digits := NatToString(n);
      NatToStringValue(n);
      AllDigitsNoDot(digits);
      Text.SplitOnNoSep(digits, '.');
    } else {
      PointedRoundTrip(n, scale);
    }
  }

  /** A weight with a fraction: the padded digits, cut by a point `scale` digits from the end. */
  lemma PointedRoundTrip(n: nat, scale: nat)
    requires scale > 0
    ensures ParseUnsignedDecimal(UnsignedDecimalString(n, scale)) == Some(Decimal(n, scale))
    ensures var s := UnsignedDecimalString(n, scale); |s| > 0 && IsDigit(s[0]) && NumberChars(s)
  {
    var padded := Padded(n, scale);
    PaddedDigits(n, scale);
    var ip, fp := padded[..|padded| - scale], padded[|padded| - scale..];
    Seqs.SplitAt(padded, |padded| - scale);
    DotSplit(ip, fp);
    PointedChars(ip, fp);
    assert ip[0] == padded[0];
    assert UnsignedDecimalString(n, scale) == ip + "." + fp;
  }

  /** A minus sign negates what the rest reads as. */
  lemma NegativeFloat(u: string, e: Decimal)
    requires ParseUnsignedDecimal(u) == Some(e)
    ensures ParseFloat("-" + u) == Some(Decimal(-e.mantissa, e.scale))
  {
    assert ("-" + u)[1..] == u;
  }

  /** `float(str(w))` gives back the weight exactly, scale included. */
  lemma DecimalRoundTrip(d: Decimal)
    ensures ParseFloat(DecimalToString(d)) == Some(d)
    ensures var s := DecimalToString(d); |s| > 0 && NumberChars(s)
  {
    if d.mantissa < 0 {
      NegativeDecimalRoundTrip(d);
    } else {
      UnsignedDecimalRoundTrip(d.mantissa, d.scale);
    }
  }

  /** A negative weight is written with a minus in front of its magnitude. */
  lemma NegativeDecimalRoundTrip(d: Decimal)
    requires d.mantissa < 0
    ensures ParseFloat(DecimalToString(d)) == Some(d)
    ensures var s := DecimalToString(d); |s| > 0 && NumberChars(s)
  {
    var m: nat := -d.mantissa;
    var u := UnsignedDecimalString(m, d.scale);
    UnsignedDecimalRoundTrip(m, d.scale);
    MinusRoundTrip(u, Decimal(m, d.scale));
    assert DecimalToString(d) == "-" + u;
  }

  /** A minus sign in front of a written magnitude. */
  lemma MinusRoundTrip(u: string, e: Decimal)
    requires ParseUnsignedDecimal(u) == Some(e) && NumberChars(u)
    ensures ParseFloat("-" + u) == Some(Decimal(-e.mantissa, e.scale))
    ensures |"-" + u| > 0 && NumberChars("-" + u)
  {
    MinusChars(u);
    NegativeFloat(u, e);
  }

  /** A written integer is a non-empty run of digits with at most a leading minus. */
  lemma IntToStringChars(i: int)
    ensures var s := IntToString(i); |s| > 0 && NumberChars(s)
  {
    var s := IntToString(i);
    if i < 0 {
      var t := NatToString(-i);
      assert forall k :: 1 <= k < |s| ==> s[k] == t[k - 1];
    }
  }

  /** Python's int() refuses a point; float() reads an integer literal as the same whole number. */
  lemma IntTokenIsWholeWeight(s: string, n: int)
    requires ParseInt(s) == Some(n)
    ensures ParseFloat(s) == Some(Decimal(n, 0))
  {
    var u := if s[0] == '-' || s[0] == '+' then s[1..] else s;
    assert '.' !in u by {
      forall i | 0 <= i < |u| ensures u[i] != '.' { assert IsDigit(u[i]); }
    }
    Text.SplitOnNoSep(u, '.');
  }
}
