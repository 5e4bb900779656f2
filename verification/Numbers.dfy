/** Reading and printing the numbers of the command line. */
module Numbers {
  import opened Wire

  datatype Option<+T> = None | Some(value: T)

  // ---------------------------------------------------------------- digit strings

  predicate IsDigit(c: char) { '0' <= c <= '9' }

  predicate AllDigits(s: string) {
    forall i :: 0 <= i < |s| ==> IsDigit(s[i])
  }

  function DigitValue(c: char): (d: nat)
    requires IsDigit(c)
    ensures d < 10
  {
    c as int - '0' as int
  }

  function DigitChar(d: nat): (c: char)
    requires d < 10
    ensures IsDigit(c) && DigitValue(c) == d
  {
    ('0' as int + d) as char
  }

  function ValueOf(s: string): nat
    requires AllDigits(s)
  {
    if s == "" then 0 else 10 * ValueOf(s[..|s| - 1]) + DigitValue(s[|s| - 1])
  }

  /** The decimal digits of n. */
  function Digits(n: nat): (s: string)
    ensures s != "" && AllDigits(s)
  {
    if n < 10 then [DigitChar(n)] else Digits(n / 10) + [DigitChar(n % 10)]
  }

  lemma {:induction false} ValueOfDigits(n: nat)
    ensures ValueOf(Digits(n)) == n
  {
    if n >= 10 {
      ValueOfDigits(n / 10);
      var s := Digits(n);
      assert s[..|s| - 1] == Digits(n / 10);
    } else {
      assert [DigitChar(n)][..0] == "";
    }
  }

  /** The number of digits a string starts with. */
  function Span(s: string): (n: nat)
    ensures n <= |s| && AllDigits(s[..n])
    ensures n < |s| ==> !IsDigit(s[n])
  {
    if s == "" || !IsDigit(s[0]) then 0
    else
      var n := 1 + Span(s[1..]);
      assert forall i :: 1 <= i < n ==> s[i] == s[1..][..n - 1][i - 1];
      n
  }

  lemma {:induction false} SpanIs(s: string, n: nat)
    requires n <= |s| && AllDigits(s[..n]) && (n == |s| || !IsDigit(s[n]))
    ensures Span(s) == n
  {
    if n > 0 {
      assert IsDigit(s[..n][0]);
      assert s[1..][..n - 1] == s[..n][1..];
      SpanIs(s[1..], n - 1);
    }
  }

  // ---------------------------------------------------------------- parse_strict_int64

  /** An optional minus sign, at least one digit, nothing else, and a value that fits 64 bits. */
  function StrictInt64(s: string): Option<int> {
    var negative := s != "" && s[0] == '-';
    var digits := if negative then s[1..] else s;
    if digits == "" || !AllDigits(digits) then None
    else
      var v: int := if negative then 0 - ValueOf(digits) else ValueOf(digits);
      if 0 - TWO_63 <= v < TWO_63 then Some(v) else None
  }

  /** A count of at least 1, stored in a 32-bit field. */
  function Count(s: string): Option<U32> {
    match StrictInt64(s)
    case Some(n) => if n >= 1 then Some(Low32(n)) else None
    case None => None
  }

  lemma StrictInt64OfDigits(n: nat)
    requires n < TWO_63
    ensures StrictInt64(Digits(n)) == Some(n)
  {
    ValueOfDigits(n);
    assert IsDigit(Digits(n)[0]);
  }

  /** The narrowing cast: a token is accepted as a count exactly when it is a strict integer of at least 1;
      its value is stored unchanged exactly when it is below 2^32, and as zero exactly when it is a multiple
      of 2^32. */
  lemma CountNarrowing(s: string)
    ensures Count(s).Some? <==> StrictInt64(s).Some? && StrictInt64(s).value >= 1
    ensures Count(s).Some? ==> (Count(s).value == StrictInt64(s).value <==> StrictInt64(s).value < TWO_32)
    ensures Count(s).Some? ==> (Count(s).value == 0 <==> StrictInt64(s).value % TWO_32 == 0)
  {
  }

  /** Every value from 1 to 2^63 - 1 is written by some token, the multiples of 2^32 among them. */
  lemma CountOfDigits(n: nat)
    requires 1 <= n < TWO_63
    ensures StrictInt64(Digits(n)) == Some(n) && Count(Digits(n)) == Some(Low32(n))
  {
    StrictInt64OfDigits(n);
  }

  // ---------------------------------------------------------------- strtod on decimal numbers

  /** m * 10^e. */
  function Scaled(m: int, e: int): real
    decreases if e >= 0 then e else 0 - e
  {
    if e == 0 then m as real
    else if e > 0 then Scaled(10 * m, e - 1)
    else Scaled(m, e + 1) / 10.0
  }

  lemma {:induction false} ScaledSign(m: int, e: int)
    ensures (Scaled(m, e) > 0.0 <==> m > 0) && (Scaled(m, e) < 0.0 <==> m < 0)
    decreases if e >= 0 then e else 0 - e
  {
    if e > 0 {
      ScaledSign(10 * m, e - 1);
    } else if e < 0 {
      ScaledSign(m, e + 1);
    }
  }

  function SignLength(s: string): (n: nat)
    ensures n <= |s|
  {
    if s != "" && (s[0] == '+' || s[0] == '-') then 1 else 0
  }

  function Signed(s: string, v: nat): int {
    if s != "" && s[0] == '-' then 0 - v else v
  }

  /** An exponent part at the start of s: its value and its length, or (0, 0) if there is none. */
  function Exponent(s: string): (r: (int, nat))
    ensures r.1 <= |s|
  {
    if s == "" || !(s[0] == 'e' || s[0] == 'E') then (0, 0)
    else
      var g := SignLength(s[1..]);
      var d := Span(s[1 + g..]);
      if d == 0 then (0, 0)
      else (Signed(s[1..], ValueOf(s[1 + g..][..d])), 1 + g + d)
  }

  datatype Number = NoNumber | Number(value: real, rest: string)

  /** The digits of a decimal number, how many of them follow the point, and what comes after them. */
  datatype Mantissa = Mantissa(digits: string, places: nat, tail: string)

  function MantissaOf(body: string): (r: Mantissa)
    ensures AllDigits(r.digits)
    ensures r.digits != "" ==> body != "" && (IsDigit(body[0]) || body[0] == '.')
  {
    var a := Span(body);
    assert a > 0 ==> body[0] == body[..a][0] && IsDigit(body[..a][0]);
    if a < |body| && body[a] == '.' then
      var f := Span(body[a + 1..]);
      Mantissa(body[..a] + body[a + 1..][..f], f, body[a + 1 + f..])
    else
      Mantissa(body[..a], 0, body[a..])
  }

  /** The number written by the sign of s, a mantissa and the exponent that may follow it. */
  function NumberOf(s: string, m: Mantissa): Number
    requires AllDigits(m.digits)
  {
    if m.digits == "" then NoNumber
    else
      var (e, n) := Exponent(m.tail);
      Number(Scaled(Signed(s, ValueOf(m.digits)), e - m.places), m.tail[n..])
  }

  /** The longest decimal number at the start of s: sign, digits with an optional point, exponent. */
  function Strtod(s: string): Number {
    NumberOf(s, MantissaOf(s[SignLength(s)..]))
  }

  /** A number starts with a digit, a point or a sign. */
  lemma NumberStart(s: string)
    requires Strtod(s).Number?
    ensures s != "" && (IsDigit(s[0]) || s[0] == '.' || s[0] == '+' || s[0] == '-')
  {
    assert s[0..] == s;
  }

  // ---------------------------------------------------------------- numbers with units

  /** Units and their multipliers; the first entry with the given name counts. */
  function Multiplier(units: seq<(string, real)>, unit: string): Option<real> {
    if units == [] then None
    else if units[0].0 == unit then Some(units[0].1)
    else Multiplier(units[1..], unit)
  }

  function WithUnits(s: string, units: seq<(string, real)>): Option<real> {
    InUnits(Strtod(s), units)
  }

  function InUnits(n: Number, units: seq<(string, real)>): Option<real> {
    match n
    case NoNumber => None
    case Number(v, unit) =>
      if unit == "" then Some(v)
      else match Multiplier(units, unit) {
        case Some(m) => Some(v * m)
        case None => None
      }
  }

  const FREQUENCY_UNITS: seq<(string, real)> := [("Hz", 1.0), ("kHz", 1000.0)]

  const SIZE_UNITS: seq<(string, real)> :=
    [("B", 1.0), ("k", 1024.0), ("M", 1048576.0), ("kB", 1024.0), ("KiB", 1024.0), ("MB", 1048576.0),
     ("MiB", 1048576.0)]

  function Frequency(s: string): Option<real> {
    if s == "inf" then Some(0.0) else WithUnits(s, FREQUENCY_UNITS)
  }

  /** Sizes are truncated to whole bytes and must fit 32 bits. */
  function Size(s: string): Option<U32> {
    match WithUnits(s, SIZE_UNITS)
    case None => None
    case Some(v) => if v < 0.0 || v > 4294967295.0 then None else Some(v.Floor)
  }

  function Duration(s: string): Option<real> {
    match Strtod(s)
    case NoNumber => None
    case Number(v, rest) => if rest != "" || v < 0.0 then None else Some(v)
  }

  function Domain(s: string): Option<int> {
    match StrictInt64(s)
    case Some(n) => if 0 <= n <= 232 then Some(n) else None
    case None => None
  }

  // ---------------------------------------------------------------- printing

  predicate IsScaled(r: real, m: nat, k: nat) { r == Scaled(m, 0 - k) }

  /** A non-negative number with finitely many decimals, as every finite double is. */
  ghost predicate Terminating(r: real) {
    exists m: nat, k: nat :: IsScaled(r, m, k)
  }

  function PrintScaled(m: nat, k: nat): string {
    Digits(m) + ("e-" + Digits(k))
  }

  ghost function PrintReal(r: real): (s: string)
    requires Terminating(r)
    ensures exists m: nat, k: nat :: IsScaled(r, m, k) && s == PrintScaled(m, k)
  {
    var m: nat, k: nat :| IsScaled(r, m, k);
    PrintScaled(m, k)
  }

  lemma ExponentOf(k: nat)
    ensures Exponent("e-" + Digits(k)) == (0 - k, 2 + |Digits(k)|)
  {
    var d := Digits(k);
    var s := "e-" + d;
    assert s[1..] == "-" + d;
    assert s[2..] == d;
    SpanIs(d, |d|);
    assert d[..|d|] == d;
    ValueOfDigits(k);
  }

  /** A string of digits followed by neither a digit nor a point. */
  lemma WholeMantissa(d: string, tail: string)
    requires d != "" && AllDigits(d) && (tail == "" || (!IsDigit(tail[0]) && tail[0] != '.'))
    ensures var s := d + tail; SignLength(s) == 0 && s[0] == d[0] && MantissaOf(s[0..]) == Mantissa(d, 0, tail)
  {
    var s := d + tail;
    assert IsDigit(d[0]) && s[0] == d[0] && s[0..] == s;
    assert s[..|d|] == d && s[|d|..] == tail;
    assert tail != "" ==> s[|d|] == tail[0];
    SpanIs(s, |d|);
  }

  /** Such a string reads as the digits scaled by the exponent part, if there is one. */
  lemma ReadScaled(d: string, tail: string, e: int, n: nat)
    requires d != "" && AllDigits(d) && (tail == "" || (!IsDigit(tail[0]) && tail[0] != '.'))
    requires Exponent(tail) == (e, n)
    ensures Strtod(d + tail) == Number(Scaled(ValueOf(d), e), tail[n..])
  {
    WholeMantissa(d, tail);
    assert (d + tail)[SignLength(d + tail)..] == (d + tail)[0..];
    ReadMantissa(d + tail, d, tail, e, n);
  }

  lemma ReadMantissa(s: string, d: string, tail: string, e: int, n: nat)
    requires d != "" && AllDigits(d) && s != "" && s[0] == d[0] && Exponent(tail) == (e, n)
    ensures NumberOf(s, Mantissa(d, 0, tail)) == Number(Scaled(ValueOf(d), e), tail[n..])
  {
    assert IsDigit(s[0]);
    assert Signed(s, ValueOf(d)) == ValueOf(d);
  }

  lemma PlainDigits(n: nat)
    ensures Strtod(Digits(n)) == Number(n as real, "")
  {
    assert Digits(n) + "" == Digits(n);
    ReadScaled(Digits(n), "", 0, 0);
    ValueOfDigits(n);
  }

  lemma ReadPrinted(d: string, x: string, m: nat, e: int)
    requires d != "" && AllDigits(d) && ValueOf(d) == m && x != "" && x[0] == 'e' && Exponent(x) == (e, |x|)
    ensures Strtod(d + x) == Number(Scaled(m, e), "")
  {
    ReadScaled(d, x, e, |x|);
  }

  lemma PrintedNumber(m: nat, k: nat)
    ensures Strtod(PrintScaled(m, k)) == Number(Scaled(m, 0 - k), "")
  {
    ExponentOf(k);
    ValueOfDigits(m);
    ReadPrinted(Digits(m), "e-" + Digits(k), m, 0 - k);
  }

  lemma PrintedReal(r: real)
    requires Terminating(r)
    ensures Strtod(PrintReal(r)) == Number(r, "")
    ensures PrintReal(r) != "" && IsDigit(PrintReal(r)[0])
  {
    var m: nat, k: nat :| IsScaled(r, m, k) && PrintReal(r) == PrintScaled(m, k);
    PrintedNumber(m, k);
    assert IsDigit(Digits(m)[0]);
  }

  lemma TerminatingNonNegative(r: real)
    requires Terminating(r)
    ensures r >= 0.0
  {
    var m: nat, k: nat :| IsScaled(r, m, k);
    ScaledSign(m, 0 - k);
  }

  lemma PlainFrequency(w: string, r: real)
    requires Strtod(w) == Number(r, "") && w != "inf"
    ensures Frequency(w) == Some(r)
  {
  }

  lemma PlainDuration(w: string, r: real)
    requires Strtod(w) == Number(r, "") && r >= 0.0
    ensures Duration(w) == Some(r)
  {
  }

  /** A number without a unit is read alike as a rate and as a duration. */
  lemma PlainNumber(w: string, r: real)
    requires Strtod(w) == Number(r, "") && w != "" && IsDigit(w[0]) && r >= 0.0
    ensures Frequency(w) == Some(r) && Duration(w) == Some(r)
  {
    assert "inf"[0] == 'i';
    PlainFrequency(w, r);
    PlainDuration(w, r);
  }

  lemma PrintedSize(n: U32)
    ensures Size(Digits(n)) == Some(n)
  {
    PlainDigits(n);
  }
}
