/** What the number readers make of a text: its sign, its digits before and after the point, its exponent
    and its unit, with powers of ten written out. */
module Decimals {
  import opened Numbers
  import opened Wire

  // ---------------------------------------------------------------- positional values

  function Pow10(k: nat): (p: nat)
    ensures p > 0
  {
    if k == 0 then 1 else 10 * Pow10(k - 1)
  }

  /** One more digit. */
  lemma ValueAppend(a: string, c: char)
    requires AllDigits(a) && IsDigit(c)
    ensures AllDigits(a + [c]) && ValueOf(a + [c]) == 10 * ValueOf(a) + DigitValue(c)
  {
    assert (a + [c])[..|a|] == a;
  }

  lemma ShiftOnce(v: nat, p: nat, w: nat, d: nat)
    ensures 10 * (v * p + w) + d == v * (10 * p) + (10 * w + d)
  {
  }

  /** A digit string is read positionally: digits put after others shift those to the left. */
  lemma {:induction false} ValueConcat(a: string, b: string)
    requires AllDigits(a) && AllDigits(b)
    ensures AllDigits(a + b) && ValueOf(a + b) == ValueOf(a) * Pow10(|b|) + ValueOf(b)
  {
    if b == "" {
      assert a + b == a;
    } else {
      var n := |b| - 1;
      ValueConcat(a, b[..n]);
      ValueAppend(a + b[..n], b[n]);
      assert a + b == (a + b[..n]) + [b[n]];
      ShiftOnce(ValueOf(a), Pow10(n), ValueOf(b[..n]), DigitValue(b[n]));
    }
  }

  lemma {:induction false} ScaledUp(m: int, k: nat)
    ensures Scaled(m, k) == (m * Pow10(k)) as real
    decreases k
  {
    if k > 0 {
      ScaledUp(10 * m, k - 1);
      assert (10 * m) * Pow10(k - 1) == m * Pow10(k);
    }
  }

  lemma TenTimes(x: real, p: nat)
    ensures (x / 10.0) * (10 * p) as real == x * p as real
  {
    var y := x / 10.0;
    assert (10 * p) as real == 10.0 * p as real;
    assert y * (10.0 * p as real) == (y * 10.0) * p as real;
  }

  lemma {:induction false} ScaledDown(m: int, k: nat)
    ensures Scaled(m, 0 - k) * Pow10(k) as real == m as real
  {
    if k > 0 {
      ScaledDown(m, k - 1);
      TenTimes(Scaled(m, 0 - (k - 1)), Pow10(k - 1));
    } else {
      assert Scaled(m, 0) * 1.0 == m as real;
    }
  }

  /** Scaling is by a power of ten: up by it, or down so that scaling up again gives the integer back. */
  lemma ScaledIsPower(m: int, k: nat)
    ensures Scaled(m, k) == (m * Pow10(k)) as real
    ensures Scaled(m, 0 - k) * Pow10(k) as real == m as real
  {
    ScaledUp(m, k);
    ScaledDown(m, k);
  }

  // ---------------------------------------------------------------- strtod

  predicate IsSign(sign: string) { sign == "" || sign == "+" || sign == "-" }

  function WithSign(sign: string, v: nat): int {
    if sign == "-" then 0 - v else v
  }

  predicate StartsWithDigit(s: string) { s != "" && IsDigit(s[0]) }

  lemma SignIs(sign: string, body: string, v: nat)
    requires IsSign(sign) && body != "" && body[0] != '+' && body[0] != '-'
    ensures SignLength(sign + body) == |sign| && (sign + body)[|sign|..] == body
    ensures Signed(sign + body, v) == WithSign(sign, v)
  {
    var s := sign + body;
    assert s[0] == if sign == "" then body[0] else sign[0];
  }

  lemma ExponentIs(s: string, more: string, g: nat, body: string, k: nat, v: int)
    requires s != "" && (s[0] == 'e' || s[0] == 'E') && more == s[1..] && g == SignLength(more)
    requires body == s[1 + g..] && k == Span(body) && k > 0 && v == Signed(more, ValueOf(body[..k]))
    ensures Exponent(s) == (v, 1 + g + k)
  {
  }

  lemma SpanOf(d: string, rest: string)
    requires AllDigits(d) && !StartsWithDigit(rest)
    ensures Span(d + rest) == |d| && (d + rest)[..|d|] == d && (d + rest)[|d|..] == rest
  {
    var s := d + rest;
    assert s[..|d|] == d && (rest != "" ==> s[|d|] == rest[0]);
    SpanIs(s, |d|);
  }

  lemma MarkedExponent(s: string, sign: string, body: string, k: nat, v: int)
    requires s != "" && (s[0] == 'e' || s[0] == 'E') && s[1..] == sign + body && IsSign(sign) && StartsWithDigit(body)
    requires k == Span(body) && k > 0 && v == WithSign(sign, ValueOf(body[..k]))
    ensures Exponent(s) == (v, 1 + |sign| + k)
  {
    SignIs(sign, body, ValueOf(body[..k]));
    assert s[1 + |sign|..] == body;
    ExponentIs(s, sign + body, |sign|, body, k, v);
  }

  lemma DigitsFirst(d: string, rest: string)
    requires d != "" && AllDigits(d)
    ensures StartsWithDigit(d + rest)
  {
    assert (d + rest)[0] == d[0] && IsDigit(d[0]);
  }

  /** An exponent: e or E, a sign, digits, and then no further digit. */
  lemma ExponentRead(s: string, sign: string, d: string, rest: string, v: int)
    requires s != "" && (s[0] == 'e' || s[0] == 'E') && s[1..] == sign + (d + rest)
    requires IsSign(sign) && d != "" && AllDigits(d) && !StartsWithDigit(rest) && v == WithSign(sign, ValueOf(d))
    ensures Exponent(s) == (v, 1 + |sign| + |d|)
  {
    DigitsFirst(d, rest);
    SpanOf(d, rest);
    MarkedExponent(s, sign, d + rest, |d|, v);
  }

  /** Anything else is no exponent: another character, or no digit after the mark and its sign. */
  lemma NoExponent(s: string)
    requires s == "" || !(s[0] == 'e' || s[0] == 'E') || !StartsWithDigit(s[1 + SignLength(s[1..])..])
    ensures Exponent(s) == (0, 0)
  {
  }

  lemma PointMantissa(body: string, a: string, after: string, b: string, tail: string)
    requires Span(body) == |a| < |body| && body[..|a|] == a && body[|a|] == '.' && body[|a| + 1..] == after
    requires Span(after) == |b| && after[..|b|] == b && after[|b|..] == tail
    ensures MantissaOf(body) == Mantissa(a + b, |b|, tail)
  {
    assert body[|a| + 1 + |b|..] == after[|b|..];
  }

  lemma DecimalMantissa(a: string, b: string, tail: string)
    requires AllDigits(a) && AllDigits(b) && !StartsWithDigit(tail)
    ensures MantissaOf(a + ("." + (b + tail))) == Mantissa(a + b, |b|, tail)
  {
    var after := b + tail;
    var point := "." + after;
    SpanOf(a, point);
    SpanOf(b, tail);
    assert (a + point)[|a| + 1..] == after;
    PointMantissa(a + point, a, after, b, tail);
  }

  lemma StrtodIs(s: string, body: string, m: Mantissa)
    requires body == s[SignLength(s)..] && MantissaOf(body) == m && AllDigits(m.digits)
    ensures Strtod(s) == NumberOf(s, m)
  {
  }

  lemma NumberOfIs(s: string, m: Mantissa, v: int, k: int, e: int, n: nat)
    requires m.digits != "" && AllDigits(m.digits) && n <= |m.tail|
    requires Exponent(m.tail) == (e, n) && v == Signed(s, ValueOf(m.digits)) && k == e - m.places
    ensures NumberOf(s, m) == Number(Scaled(v, k), m.tail[n..])
  {
  }

  lemma BodyStart(body: string)
    requires MantissaOf(body).digits != ""
    ensures body != "" && body[0] != '+' && body[0] != '-'
  {
  }

  lemma ReadBody(sign: string, body: string, m: Mantissa, v: int, k: int, e: int, n: nat)
    requires IsSign(sign) && MantissaOf(body) == m && m.digits != "" && AllDigits(m.digits)
    requires Exponent(m.tail) == (e, n) && v == WithSign(sign, ValueOf(m.digits)) && k == e - m.places
    ensures Strtod(sign + body) == Number(Scaled(v, k), m.tail[n..])
  {
    BodyStart(body);
    SignIs(sign, body, ValueOf(m.digits));
    StrtodIs(sign + body, body, m);
    NumberOfIs(sign + body, m, v, k, e, n);
  }

  /** A number with a point: all its digits as one integer v, scaled down by one place for each digit after
      the point and then by the exponent. */
  lemma ReadDecimal(sign: string, a: string, b: string, tail: string, v: int, k: int, e: int, n: nat)
    requires IsSign(sign) && AllDigits(a) && AllDigits(b) && (a != "" || b != "") && !StartsWithDigit(tail)
    requires AllDigits(a + b) && v == WithSign(sign, ValueOf(a + b))
    requires Exponent(tail) == (e, n) && k == e - |b|
    ensures Strtod(sign + (a + ("." + (b + tail)))) == Number(Scaled(v, k), tail[n..])
  {
    DecimalMantissa(a, b, tail);
    assert |a + b| > 0;
    ReadBody(sign, a + ("." + (b + tail)), Mantissa(a + b, |b|, tail), v, k, e, n);
  }

  /** A number without a point. */
  lemma ReadWhole(sign: string, d: string, tail: string, e: int, n: nat)
    requires IsSign(sign) && d != "" && AllDigits(d) && !StartsWithDigit(tail) && (tail == "" || tail[0] != '.')
    requires Exponent(tail) == (e, n)
    ensures Strtod(sign + (d + tail)) == Number(Scaled(WithSign(sign, ValueOf(d)), e), tail[n..])
  {
    WholeMantissa(d, tail);
    assert (d + tail)[0..] == d + tail;
    ReadBody(sign, d + tail, Mantissa(d, 0, tail), WithSign(sign, ValueOf(d)), e, e, n);
  }

  /** Text is a number exactly when a digit follows the sign, or a point and a digit. */
  lemma NumberExactly(s: string)
    ensures var body := s[SignLength(s)..];
      Strtod(s).Number? <==> StartsWithDigit(body) || (body != "" && body[0] == '.' && StartsWithDigit(body[1..]))
  {
    var body := s[SignLength(s)..];
    var a := Span(body);
    if a < |body| && body[a] == '.' {
      var f := Span(body[a + 1..]);
      assert body[..a] + body[a + 1..][..f] == "" <==> a == 0 && f == 0;
    }
  }

  // ---------------------------------------------------------------- numbers with units

  lemma MultiplierCons(name: string, m: real, more: seq<(string, real)>, unit: string)
    ensures Multiplier([(name, m)] + more, unit) == if unit == name then Some(m) else Multiplier(more, unit)
  {
    assert ([(name, m)] + more)[1..] == more;
  }

  lemma FrequencyUnit(unit: string)
    ensures Multiplier(FREQUENCY_UNITS, unit)
         == if unit == "Hz" then Some(1.0) else if unit == "kHz" then Some(1000.0) else None
  {
    assert FREQUENCY_UNITS == [("Hz", 1.0)] + [("kHz", 1000.0)];
    assert [("kHz", 1000.0)] + [] == [("kHz", 1000.0)];
    MultiplierCons("Hz", 1.0, [("kHz", 1000.0)], unit);
    MultiplierCons("kHz", 1000.0, [], unit);
  }

  lemma NotInf(s: string)
    requires Strtod(s).Number?
    ensures s != "inf"
  {
    NumberStart(s);
    assert "inf"[0] == 'i';
  }

  lemma HertzMeans(v: real, unit: string)
    ensures InUnits(Number(v, unit), FREQUENCY_UNITS)
         == if unit == "" || unit == "Hz" then Some(v) else if unit == "kHz" then Some(v * 1000.0) else None
  {
    FrequencyUnit(unit);
  }

  lemma FrequencyIs(s: string, number: Number)
    requires Strtod(s) == number && number.Number?
    ensures Frequency(s) == InUnits(number, FREQUENCY_UNITS)
  {
    NotInf(s);
  }

  /** A frequency: a number in hertz, in kHz a thousand times that. */
  lemma FrequencyMeans(s: string, v: real, unit: string)
    requires Strtod(s) == Number(v, unit)
    ensures Frequency(s)
         == if unit == "" || unit == "Hz" then Some(v) else if unit == "kHz" then Some(v * 1000.0) else None
  {
    FrequencyIs(s, Number(v, unit));
    HertzMeans(v, unit);
  }

  /** Of the texts that are no number, "inf" alone is a frequency, and it stands for 0. */
  lemma FrequencyElse(s: string)
    requires Strtod(s).NoNumber?
    ensures Frequency(s) == if s == "inf" then Some(0.0) else None
  {
  }

  predicate IsKilo(unit: string) { unit == "k" || unit == "kB" || unit == "KiB" }

  predicate IsMega(unit: string) { unit == "M" || unit == "MB" || unit == "MiB" }

  lemma SizeUnit(unit: string)
    ensures Multiplier(SIZE_UNITS, unit)
         == if unit == "B" then Some(1.0) else if IsKilo(unit) then Some(1024.0)
            else if IsMega(unit) then Some(1048576.0) else None
  {
    var last: seq<(string, real)> := [("MiB", 1048576.0)];
    assert last == last + [];
    MultiplierCons("MiB", 1048576.0, [], unit);
    MultiplierCons("MB", 1048576.0, last, unit);
    var mega := [("MB", 1048576.0)] + last;
    MultiplierCons("KiB", 1024.0, mega, unit);
    MultiplierCons("kB", 1024.0, [("KiB", 1024.0)] + mega, unit);
    var kilo := [("kB", 1024.0)] + ([("KiB", 1024.0)] + mega);
    MultiplierCons("M", 1048576.0, kilo, unit);
    MultiplierCons("k", 1024.0, [("M", 1048576.0)] + kilo, unit);
    MultiplierCons("B", 1.0, [("k", 1024.0)] + ([("M", 1048576.0)] + kilo), unit);
    assert SIZE_UNITS == [("B", 1.0)] + ([("k", 1024.0)] + ([("M", 1048576.0)] + kilo));
  }

  /** v with a size unit, in bytes: the units are binary. */
  function BytesIn(v: real, unit: string): Option<real> {
    if unit == "" || unit == "B" then Some(v)
    else if IsKilo(unit) then Some(v * 1024.0)
    else if IsMega(unit) then Some(v * 1048576.0)
    else None
  }

  /** The whole bytes, if they fit 32 bits. */
  function Truncated(bytes: Option<real>): Option<U32> {
    if bytes.Some? && 0.0 <= bytes.value <= 4294967295.0 then Some(bytes.value.Floor) else None
  }

  lemma BytesMean(v: real, unit: string)
    ensures InUnits(Number(v, unit), SIZE_UNITS) == BytesIn(v, unit)
  {
    SizeUnit(unit);
  }

  lemma SizeIs(s: string, bytes: Option<real>)
    requires InUnits(Strtod(s), SIZE_UNITS) == bytes
    ensures Size(s) == Truncated(bytes)
  {
  }

  /** A size: a number of bytes, times 1024 or 1048576 for the binary units, truncated. */
  lemma SizeMeans(s: string, v: real, unit: string)
    requires Strtod(s) == Number(v, unit)
    ensures Size(s) == Truncated(BytesIn(v, unit))
  {
    BytesMean(v, unit);
    SizeIs(s, BytesIn(v, unit));
  }

  lemma SizeElse(s: string)
    requires Strtod(s).NoNumber?
    ensures Size(s) == None
  {
  }

  /** A duration: a number that is not negative, in seconds and without a unit. */
  lemma DurationMeans(s: string)
    ensures Duration(s) == match Strtod(s)
      case NoNumber => None
      case Number(v, rest) => if rest == "" && v >= 0.0 then Some(v) else None
  {
  }

  // ---------------------------------------------------------------- strict integers

  /** A strict integer: digits with an optional minus sign, in the range of 64 bits. */
  lemma StrictInt64Means(d: string)
    requires d != "" && AllDigits(d)
    ensures StrictInt64(d) == if ValueOf(d) < 0x8000_0000_0000_0000 then Some(ValueOf(d)) else None
    ensures StrictInt64("-" + d) == if ValueOf(d) <= 0x8000_0000_0000_0000 then Some(0 - ValueOf(d)) else None
  {
    assert IsDigit(d[0]);
    assert ("-" + d)[1..] == d;
  }

  lemma StrictInt64Only(s: string)
    ensures StrictInt64(s).Some? ==> exists d :: d != "" && AllDigits(d) && (s == d || s == "-" + d)
  {
    if StrictInt64(s).Some? {
      if s[0] == '-' {
        assert s == "-" + s[1..] && AllDigits(s[1..]);
      } else {
        assert s == s && AllDigits(s);
      }
    }
  }

  // ---------------------------------------------------------------- examples

  lemma TwoDigits(a: string, b: string)
    requires |a| == |b| == 1 && IsDigit(a[0]) && IsDigit(b[0])
    ensures AllDigits(a + b) && ValueOf(a + b) == 10 * DigitValue(a[0]) + DigitValue(b[0])
  {
    ValueAppend("", a[0]);
    ValueAppend(a, b[0]);
    assert "" + [a[0]] == a && b == [b[0]];
  }

  lemma Tenths(v: nat)
    ensures Scaled(v, -1) == v as real / 10.0
  {
    assert Scaled(v, -1) == Scaled(v, 0) / 10.0;
  }

  /** Without a sign and an exponent. */
  lemma PlainDecimal(s: string, a: string, b: string, unit: string, v: nat, k: int)
    requires s == a + ("." + (b + unit))
    requires AllDigits(a) && AllDigits(b) && (a != "" || b != "") && AllDigits(a + b) && v == ValueOf(a + b)
    requires (unit == "" || !(IsDigit(unit[0]) || unit[0] == 'e' || unit[0] == 'E')) && k == 0 - |b|
    ensures Strtod(s) == Number(Scaled(v, k), unit)
  {
    NoExponent(unit);
    assert unit[0..] == unit && "" + s == s;
    ReadDecimal("", a, b, unit, v, k, 0, 0);
  }

  lemma DecimalText(s: string, a: string, b: string, unit: string)
    requires |s| >= 3 && IsDigit(s[0]) && s[1] == '.' && IsDigit(s[2]) && a == [s[0]] && b == [s[2]] && unit == s[3..]
    ensures s == a + ("." + (b + unit)) && AllDigits(a) && AllDigits(b) && AllDigits(a + b)
    ensures ValueOf(a + b) == 10 * DigitValue(s[0]) + DigitValue(s[2])
  {
    TwoDigits(a, b);
  }

  lemma HalfHertz(s: string)
    requires s == "0.5Hz"
    ensures Frequency(s) == Some(0.5)
  {
    DecimalText(s, [s[0]], [s[2]], s[3..]);
    PlainDecimal(s, [s[0]], [s[2]], s[3..], 5, -1);
    Tenths(5);
    FrequencyMeans(s, 0.5, s[3..]);
  }

  lemma OneAndHalfSeconds(s: string)
    requires s == "1.5"
    ensures Duration(s) == Some(1.5)
  {
    DecimalText(s, [s[0]], [s[2]], s[3..]);
    PlainDecimal(s, [s[0]], [s[2]], s[3..], 15, -1);
    Tenths(15);
  }

  lemma OneAndHalfKilobytes(s: string)
    requires s == "1.5k"
    ensures Size(s) == Some(1536)
  {
    DecimalText(s, [s[0]], [s[2]], s[3..]);
    PlainDecimal(s, [s[0]], [s[2]], s[3..], 15, -1);
    Tenths(15);
    SizeMeans(s, 1.5, s[3..]);
  }
}
