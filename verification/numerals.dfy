/** Decimal text of numbers in both directions: Python's `int(...)` and
    `float(...)` applied to a number token, and `str(...)` of an `int` or a
    `float`. */
module Numerals {
  import opened Results

  predicate IsDigit(c: char)
  {
    '0' <= c <= '9'
  }

  predicate AllDigits(s: string)
  {
    forall i :: 0 <= i < |s| ==> IsDigit(s[i])
  }

  function DigitValue(c: char): nat
    requires IsDigit(c)
  {
    (c as int) - ('0' as int)
  }

  function DigitChar(d: nat): (c: char)
    requires d < 10
    ensures IsDigit(c) && DigitValue(c) == d
  {
    (('0' as int) + d) as char
  }

  /** `x` times ten to the power `e`, exactly, one factor of ten at a time. */
  function Scale(x: real, e: int): (r: real)
    ensures x == 0.0 ==> r == 0.0
    decreases if e < 0 then -e else e
  {
    if e == 0 then x
    else if e > 0 then Scale(x, e - 1) * 10.0
    else Scale(x, e + 1) / 10.0
  }

  /** The number a string of decimal digits denotes, most significant first;
      the empty string denotes 0. */
  function DigitsValue(s: string): nat
    requires AllDigits(s)
  {
    if s == [] then 0 else DigitsValue(s[..|s| - 1]) * 10 + DigitValue(s[|s| - 1])
  }

  /** Canonical decimal text of a natural number: non-empty, digits only,
      no leading zero. */
  function NatText(n: nat): (s: string)
    ensures |s| > 0 && AllDigits(s)
    ensures |s| > 1 ==> s[0] != '0'
  {
    if n < 10 then [DigitChar(n)] else NatText(n / 10) + [DigitChar(n % 10)]
  }

  /** Python's `str(i)` for an `int`. */
  function IntText(i: int): string
  {
    if i < 0 then "-" + NatText(-i) else NatText(i)
  }

  /** Python's `int(token)` on the tokens the grammar produces: an optional
      sign followed by one or more decimal digits; anything else fails. */
  function ParseInt(s: string): Option<int>
  {
    if |s| > 0 && (s[0] == '-' || s[0] == '+') then
      if |s| > 1 && AllDigits(s[1..]) then
        var magnitude: int := DigitsValue(s[1..]);
        Some(if s[0] == '-' then -magnitude else magnitude)
      else None
    else if |s| > 0 && AllDigits(s) then Some(DigitsValue(s))
    else None
  }

  /** The spellings `int()` accepts: plain digits (leading zeros allowed)
      and digits after a `+` or `-`. */
  lemma ParseIntSpellings(t: string)
    ensures |t| > 0 && AllDigits(t) ==> ParseInt(t) == Some(DigitsValue(t))
    ensures |t| > 1 && t[0] == '+' && AllDigits(t[1..]) ==> ParseInt(t) == Some(DigitsValue(t[1..]))
    ensures |t| > 1 && t[0] == '-' && AllDigits(t[1..]) ==> ParseInt(t) == Some(-(DigitsValue(t[1..]) as int))
  {
    if |t| > 0 && AllDigits(t) {
      assert IsDigit(t[0]);
    }
  }

  lemma {:induction false} NatTextRoundTrip(n: nat)
    ensures DigitsValue(NatText(n)) == n
  {
    if n >= 10 {
      var s := NatText(n / 10) + [DigitChar(n % 10)];
      assert s[..|s| - 1] == NatText(n / 10);
      NatTextRoundTrip(n / 10);
    }
  }

  /** Reading back the text `str` gives an `int` yields that `int`. */
  lemma IntTextRoundTrip(i: int)
    ensures ParseInt(IntText(i)) == Some(i)
  {
    if i < 0 {
      var s := IntText(i);
      assert s[1..] == NatText(-i);
      NatTextRoundTrip(-i);
    } else {
      NatTextRoundTrip(i);
    }
  }

  /** A token with a character outside sign and digits is not an `int`. */
  lemma ParseIntRejectsNonDigit(s: string, k: int)
    requires 0 <= k < |s| && !IsDigit(s[k]) && s[k] != '-' && s[k] != '+'
    ensures ParseInt(s) == None
  {
    if |s| > 0 && (s[0] == '-' || s[0] == '+') {
      assert s[1..][k - 1] == s[k];
    }
  }

  /** Index of the first character of `s` that is in `stops`, or `|s|`. */
  function IndexOf(s: string, stops: set<char>): (k: nat)
    ensures k <= |s|
    ensures forall i :: 0 <= i < k ==> s[i] !in stops
    ensures k < |s| ==> s[k] in stops
  {
    if s == [] then 0
    else if s[0] in stops then 0
    else 1 + IndexOf(s[1..], stops)
  }

  /** An unsigned decimal mantissa `digits [. digits]` or `. digits`, with at
      least one digit in all, as an exact value. */
  function ParseMantissa(m: string): Option<real>
  {
    var d := IndexOf(m, {'.'});
    var whole := m[..d];
    var frac := if d < |m| then m[d + 1..] else "";
    if AllDigits(whole) && AllDigits(frac) && |whole| + |frac| > 0 then
      Some(DigitsValue(whole) as real + Scale(DigitsValue(frac) as real, -|frac|))
    else None
  }

  /** An unsigned float token: a mantissa and an optional exponent `e`/`E`
      with its own optional sign. */
  function ParseUnsignedFloat(body: string): Option<real>
  {
    var e := IndexOf(body, {'e', 'E'});
    var mantissa := ParseMantissa(body[..e]);
    var exponent := if e < |body| then ParseInt(body[e + 1..]) else Some(0);
    if mantissa.None? || exponent.None? then None
    else Some(Scale(mantissa.value, exponent.value))
  }

  /** Python's `float(token)` on decimal tokens: an optional sign and an
      unsigned float, as an exact value. */
  function ParseFloat(s: string): Option<real>
  {
    if |s| > 0 && s[0] == '-' then
      match ParseUnsignedFloat(s[1..])
      case Some(x) => Some(-x)
      case None => None
    else if |s| > 0 && s[0] == '+' then ParseUnsignedFloat(s[1..])
    else ParseUnsignedFloat(s)
  }

  /** Up to `n` decimal digits of a fraction in [0, 1), most significant
      first, stopping early once the fraction is exhausted. */
  function FracDigits(f: real, n: nat): (s: string)
    requires 0.0 <= f < 1.0
    ensures AllDigits(s) && |s| <= n
    decreases n
  {
    if n == 0 || f == 0.0 then ""
    else
      var d := (f * 10.0).Floor;
      [DigitChar(d)] + FracDigits(f * 10.0 - d as real, n - 1)
  }

  /** Python's `str(x)` for a `float` in positional notation: sign, integer
      part, a point and the fraction digits (at least one, at most 16). */
  function FloatText(x: real): string
  {
    var a := if x < 0.0 then -x else x;
    var whole := a.Floor;
    var digits := FracDigits(a - whole as real, 16);
    (if x < 0.0 then "-" else "") + NatText(whole) + "." + (if digits == "" then "0" else digits)
  }

  /** 10^16: from this magnitude on Python's `str` of a float switches to
      exponent form (`1e+16`). */
  const PositionalLimit: nat := 10_000_000_000_000_000

  /** A float holding a whole number below 10^16 in magnitude prints as
      that integer followed by ".0", so `10 / 2` prints as "5.0". (From
      10^16 on Python switches to exponent form, which `FloatText` does not
      produce.) */
  lemma WholeFloatText(n: int)
    requires (if n < 0 then -n else n) < PositionalLimit
    ensures FloatText(n as real) == IntText(n) + ".0"
  {
    var x := n as real;
    var m: nat := if n < 0 then -n else n;
    var sign := if x < 0.0 then "-" else "";
    assert FloatText(x) == sign + NatText(m) + "." + "0" by {
      var a := if x < 0.0 then -x else x;
      assert a == m as real && a.Floor == m;
      assert FracDigits(a - a.Floor as real, 16) == "";
    }
    assert sign + NatText(m) + "." + "0" == (sign + NatText(m)) + ".0";
    assert IntText(n) == sign + NatText(m);
  }

  /** The text `str` gives a whole float reads back as that float. */
  lemma WholeFloatParse(n: int)
    ensures ParseFloat(IntText(n) + ".0") == Some(n as real)
  {
    var m := if n < 0 then -n else n;
    var body := NatText(m) + ".0";
    UnsignedWholeFloat(m);
    if n < 0 {
      var t := IntText(n) + ".0";
      assert t == "-" + body;
      assert t[0] == '-' && t[1..] == body;
      assert -(m as real) == n as real;
    } else {
      assert IntText(n) + ".0" == body;
    }
  }

  lemma UnsignedWholeFloat(m: nat)
    ensures ParseUnsignedFloat(NatText(m) + ".0") == Some(m as real)
  {
    NatTextRoundTrip(m);
    UnsignedPointZero(NatText(m));
  }

  /** Digits followed by ".0" read as an unsigned float are the digits'
      value: there is no exponent part. */
  lemma UnsignedPointZero(w: string)
    requires |w| > 0 && AllDigits(w)
    ensures ParseUnsignedFloat(w + ".0") == Some(DigitsValue(w) as real)
  {
    var body := w + ".0";
    assert IndexOf(body, {'e', 'E'}) == |body| by {
      PointZeroShape(w);
      IndexOfIs(body, {'e', 'E'}, |body|);
    }
    UnsignedWithoutExponent(body);
    MantissaPointZero(w);
  }

  /** Without an `e` or `E` an unsigned float is just its mantissa. */
  lemma UnsignedWithoutExponent(b: string)
    requires IndexOf(b, {'e', 'E'}) == |b|
    ensures ParseUnsignedFloat(b) == ParseMantissa(b)
  {
    assert b[..|b|] == b;
  }

  lemma MantissaOfWhole(m: nat)
    ensures ParseMantissa(NatText(m) + ".0") == Some(m as real)
  {
    NatTextRoundTrip(m);
    MantissaPointZero(NatText(m));
  }

  /** Digits followed by ".0" read as a mantissa are the digits' value: the
      fraction is a single zero. */
  lemma MantissaPointZero(w: string)
    requires |w| > 0 && AllDigits(w)
    ensures ParseMantissa(w + ".0") == Some(DigitsValue(w) as real)
  {
    var body := w + ".0";
    assert IndexOf(body, {'.'}) == |w| by {
      PointZeroShape(w);
      IndexOfIs(body, {'.'}, |w|);
    }
    assert body[..|w|] == w;
    assert body[|w| + 1..] == "0";
    assert DigitsValue("0") == 0 by {
      assert "0"[..0] == "";
    }
  }

  /** `w + ".0"`: the digits of `w`, then the point, then a zero. */
  lemma PointZeroShape(w: string)
    requires AllDigits(w)
    ensures forall i :: 0 <= i < |w| ==> IsDigit((w + ".0")[i])
    ensures (w + ".0")[|w|] == '.'
    ensures (w + ".0")[|w| + 1] == '0'
    ensures |w + ".0"| == |w| + 2
  {
  }

  /** `IndexOf` is the first stop, whoever finds it. */
  lemma IndexOfIs(s: string, stops: set<char>, k: nat)
    requires k <= |s|
    requires forall i :: 0 <= i < k ==> s[i] !in stops
    requires k < |s| ==> s[k] in stops
    ensures IndexOf(s, stops) == k
  {
  }
}
