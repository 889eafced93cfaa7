// Decimal texts of floating point numbers: the mantissa that printf puts before
// the point is moved behind it, and the reader restores an exponent mark that had
// no room.

module FormattedNumbers {
  import opened Bytes
  import opened Arith
  import opened Text

  // ------------------------------------------------------------------
  // Decimal texts and what they denote

  /** A sign, a whole mantissa and the power of ten it is scaled by. */
  datatype Dec = Dec(negative: bool, mantissa: nat, exponent: int)

  function Sign(negative: bool): seq<byte> {
    if negative then "-" else ""
  }

  /** A signed exponent of at least two digits: printf's %E, and its %+03i. */
  function Exponent(e: int): (s: seq<byte>)
    ensures |s| >= 3 && (s[0] == '-' || s[0] == '+')
  {
    var d := Decimal(if e < 0 then -e else e);
    [if e < 0 then '-' else '+'] + if |d| < 2 then "0" + d else d
  }

  /** The chars behind the digits of a mantissa, and what they are. */
  datatype Mantissa = Mantissa(whole: seq<byte>, fraction: seq<byte>, rest: seq<byte>)

  function ReadMantissa(t: seq<byte>): (m: Mantissa)
    ensures AllDigits(m.whole) && AllDigits(m.fraction)
  {
    var whole := DigitRun(t);
    var u := t[|whole|..];
    if u != [] && u[0] == '.' then
      var fraction := DigitRun(u[1..]);
      Mantissa(whole, fraction, u[1 + |fraction|..])
    else Mantissa(whole, [], u)
  }

  /** The power of ten behind a mantissa. */
  function ReadShift(v: seq<byte>): int {
    if v != [] && (v[0] == 'E' || v[0] == 'e') && Stoi(v[1..]).Some? then Stoi(v[1..]).value else 0
  }

  function DigitsOf(m: Mantissa): nat
    requires AllDigits(m.whole) && AllDigits(m.fraction)
  {
    DigitsValue(m.whole + m.fraction)
  }

  /** What strtod makes of a text, without rounding. */
  function Denoted(s: seq<byte>): Option<Dec> {
    var negative := s != [] && s[0] == '-';
    var m := ReadMantissa(if negative || (s != [] && s[0] == '+') then s[1..] else s);
    if m.whole + m.fraction == [] then None
    else Some(Dec(negative, DigitsOf(m), ReadShift(m.rest) - |m.fraction|))
  }

  lemma {:induction false} SignedStoi(minus: bool, d: seq<byte>, rest: seq<byte>)
    requires d != [] && AllDigits(d) && (rest == [] || !IsDigit(rest[0]))
    ensures Stoi([if minus then '-' else '+'] + (d + rest))
         == Some(if minus then -(DigitsValue(d) as int) else DigitsValue(d))
  {
    hide DigitsValue;
    var s := [if minus then '-' else '+'] + (d + rest);
    DigitRunStops(d, rest);
    assert s[1..] == d + rest;
  }

  /** The digits of an exponent. */
  lemma {:induction false} ExponentDigits(e: int) returns (d: seq<byte>)
    ensures d != [] && AllDigits(d) && Exponent(e) == [if e < 0 then '-' else '+'] + d
    ensures DigitsValue(d) == if e < 0 then -e else e
  {
    hide Decimal;
    var n := if e < 0 then -e else e;
    d := Decimal(n);
    DigitsOfDecimal(n);
    if |d| < 2 {
      LeadingZeros(1, d);
      assert seq(1, _ => '0') == "0";
      d := "0" + d;
    }
  }

  lemma {:induction false} StoiOfExponent(e: int, rest: seq<byte>)
    requires rest == [] || !IsDigit(rest[0])
    ensures Stoi(Exponent(e) + rest) == Some(e)
  {
    hide Stoi, Exponent, DigitsValue;
    var d := ExponentDigits(e);
    SignedStoi(e < 0, d, rest);
    assert Exponent(e) + rest == [if e < 0 then '-' else '+'] + (d + rest);
  }

  /** Digits around a point, a mark and an exponent. */
  function Scientific(negative: bool, whole: seq<byte>, fraction: seq<byte>, mark: seq<byte>, e: int): seq<byte> {
    Sign(negative) + (whole + ("." + (fraction + (mark + Exponent(e)))))
  }

  lemma {:induction false} MantissaBack(whole: seq<byte>, fraction: seq<byte>, v: seq<byte>)
    requires AllDigits(whole) && AllDigits(fraction) && (v == [] || !IsDigit(v[0]))
    ensures ReadMantissa(whole + ("." + (fraction + v))) == Mantissa(whole, fraction, v)
  {
    var u := "." + (fraction + v);
    DigitRunStops(whole, u);
    assert (whole + u)[|whole|..] == u && u[1..] == fraction + v;
    DigitRunStops(fraction, v);
    assert u[1 + |fraction|..] == v;
  }

  // A sign is taken off before the mantissa is read.
  lemma {:induction false} DenotedSigned(negative: bool, t: seq<byte>)
    requires t != [] && IsDigit(t[0])
    ensures
      var m := ReadMantissa(t);
      Denoted(Sign(negative) + t)
      == if m.whole + m.fraction == [] then None
         else Some(Dec(negative, DigitsOf(m), ReadShift(m.rest) - |m.fraction|))
  {
    hide ReadMantissa, ReadShift, DigitsOf;
    var s := Sign(negative) + t;
    assert (if negative then s[1..] else s) == t;
  }

  // The number of a text with an exponent, behind a mark of either case, or behind none.
  lemma {:induction false} DenotedScientific(negative: bool, whole: seq<byte>, fraction: seq<byte>, mark: seq<byte>,
                                             e: int)
    requires AllDigits(whole) && AllDigits(fraction) && whole != [] && (mark == "E" || mark == "e" || mark == "")
    ensures Denoted(Scientific(negative, whole, fraction, mark, e))
         == Some(Dec(negative, DigitsValue(whole + fraction), (if mark == "" then 0 else e) - |fraction|))
  {
    hide Stoi, DigitsValue, Exponent, Denoted, ReadMantissa;
    var v := mark + Exponent(e);
    var t := whole + ("." + (fraction + v));
    assert v[0] == if mark == "" then Exponent(e)[0] else mark[0];
    assert IsDigit(whole[0]) && t[0] == whole[0];
    MantissaBack(whole, fraction, v);
    DenotedSigned(negative, t);
    ShiftBack(mark, e);
  }

  lemma {:induction false} ShiftBack(mark: seq<byte>, e: int)
    requires mark == "E" || mark == "e" || mark == ""
    ensures ReadShift(mark + Exponent(e)) == if mark == "" then 0 else e
  {
    hide Stoi, Exponent;
    var v := mark + Exponent(e);
    if mark != "" {
      assert v[1..] == Exponent(e);
      StoiOfExponent(e, []);
      assert Exponent(e) + [] == Exponent(e);
    } else {
      assert v == Exponent(e);
    }
  }

  // ------------------------------------------------------------------
  // Writing

  /** printf of a number with the given digits, the first of them before the point. */
  function PrintfE(negative: bool, digits: seq<byte>, e: int): seq<byte>
    requires |digits| > 0
  {
    Scientific(negative, digits[..1], digits[1..], "E", e)
  }

  function Sub(s: seq<byte>, p: nat, n: nat): seq<byte>
    requires p <= |s|
  {
    if p + n <= |s| then s[p..p + n] else s[p..]
  }

  /** make_real_string_ecl of a number other than zero, from the text of printf. */
  function MakeReal(text: seq<byte>, negative: bool): Option<seq<byte>>
    requires |text| >= if negative then 11 else 10
  {
    match Stoi(Sub(text, if negative then 11 else 10, 3))
    case None => None
    case Some(exp) =>
      var digits := if negative then Sub(text, 1, 1) + Sub(text, 3, 7) else Sub(text, 0, 1) + Sub(text, 2, 7);
      Some(((if negative then "-0." else "0.") + digits) + "E" + Exponent(exp + 1))
  }

  /** make_doub_string_ecl of a number other than zero: there is no room for the mark
      of an exponent of three digits. */
  function MakeDoub(text: seq<byte>, negative: bool): Option<seq<byte>>
    requires |text| >= if negative then 17 else 16
  {
    match Stoi(Sub(text, if negative then 17 else 16, 4))
    case None => None
    case Some(exp) =>
      var useExpChar := exp >= -100 && exp < 99;
      var digits := if negative then Sub(text, 1, 1) + Sub(text, 3, 13) else Sub(text, 0, 1) + Sub(text, 2, 13);
      Some(((if negative then "-0." else "0.") + digits) + (if useExpChar then "D" else "") + Exponent(exp + 1))
  }

  // The pieces of printf's text: the digit before the point, those behind it, the exponent.
  lemma {:induction false} PrintfParts(negative: bool, digits: seq<byte>, e: int)
    requires |digits| > 0
    ensures
      var s := PrintfE(negative, digits, e);
      var p := if negative then 1 else 0;
      && |s| == p + |digits| + 2 + |Exponent(e)|
      && s[p..p + 1] == digits[..1] && s[p + 2..p + 1 + |digits|] == digits[1..]
      && s[p + 2 + |digits|..] == Exponent(e)
  {
    hide Exponent;
    var p := if negative then 1 else 0;
    var s := PrintfE(negative, digits, e);
    assert s == (Sign(negative) + digits[..1]) + ("." + (digits[1..] + ("E" + Exponent(e))));
    assert s == ((Sign(negative) + digits[..1]) + ".") + (digits[1..] + ("E" + Exponent(e)));
    assert s == ((Sign(negative) + digits[..1]) + "." + digits[1..] + "E") + Exponent(e);
  }

  lemma {:induction false} ExponentLength(e: int)
    ensures -99 <= e <= 99 ==> |Exponent(e)| == 3
    ensures -999 <= e <= 999 ==> |Exponent(e)| <= 4
    ensures (e < -99 || e > 99) ==> |Exponent(e)| >= 4
  {
    hide Decimal;
    var n := if e < 0 then -e else e;
    assert Pow10(2) == 100 && Pow10(3) == 1000;
    DecimalLength(n, 2);
    DecimalLength(n, 3);
    DecimalLength(n, 1);
  }

  /** The text that is written: no digit before the point, and the mark if it has room. */
  function Renormalised(negative: bool, digits: seq<byte>, mark: seq<byte>, e: int): seq<byte> {
    Scientific(negative, "0", digits, mark, e + 1)
  }

  lemma SameRenormalised(negative: bool, digits: seq<byte>, mark: seq<byte>, e: int)
    ensures ((if negative then "-0." else "0.") + digits) + mark + Exponent(e + 1)
         == Renormalised(negative, digits, mark, e)
  {}

  lemma {:induction false} RealIsRenormalised(negative: bool, digits: seq<byte>, e: int)
    requires |digits| == 8 && -99 <= e <= 99
    ensures |PrintfE(negative, digits, e)| >= if negative then 11 else 10
    ensures MakeReal(PrintfE(negative, digits, e), negative) == Some(Renormalised(negative, digits, "E", e))
  {
    hide Exponent, Stoi;
    PrintfParts(negative, digits, e);
    hide PrintfE;
    ExponentLength(e);
    StoiOfExponent(e, []);
    assert Exponent(e) + [] == Exponent(e);
    var s, p := PrintfE(negative, digits, e), if negative then 1 else 0;
    assert Sub(s, p, 1) == digits[..1] && Sub(s, p + 2, 7) == digits[1..] && Sub(s, p + 10, 3) == Exponent(e);
    assert digits[..1] + digits[1..] == digits;
    SameRenormalised(negative, digits, "E", e);
  }

  lemma {:induction false} DoubIsRenormalised(negative: bool, digits: seq<byte>, e: int)
    requires |digits| == 14 && -999 <= e <= 999
    ensures |PrintfE(negative, digits, e)| >= if negative then 17 else 16
    ensures MakeDoub(PrintfE(negative, digits, e), negative)
         == Some(Renormalised(negative, digits, if -100 <= e < 99 then "D" else "", e))
  {
    hide Exponent, Stoi;
    PrintfParts(negative, digits, e);
    hide PrintfE;
    ExponentLength(e);
    StoiOfExponent(e, []);
    assert Exponent(e) + [] == Exponent(e);
    var s, p := PrintfE(negative, digits, e), if negative then 1 else 0;
    assert Sub(s, p, 1) == digits[..1] && Sub(s, p + 2, 13) == digits[1..] && Sub(s, p + 16, 4) == Exponent(e);
    assert digits[..1] + digits[1..] == digits;
    SameRenormalised(negative, digits, if -100 <= e < 99 then "D" else "", e);
  }

  // ------------------------------------------------------------------
  // Reading

  /** The first place of one of some chars from a place on, or the length. */
  function FindFrom(s: seq<byte>, chars: seq<byte>, p: nat): (q: nat)
    requires p <= |s|
    ensures p <= q <= |s|
    ensures q < |s| ==> s[q] in chars
    ensures forall i :: p <= i < q ==> s[i] !in chars
    decreases |s| - p
  {
    if p == |s| || s[p] in chars then p else FindFrom(s, chars, p + 1)
  }

  /** What readFormattedDoubArray does to a text before stod: a D becomes an E, and
      an E is put before an exponent that has no mark. */
  function RestoreMark(s: seq<byte>): seq<byte> {
    var p := FindFrom(s, "D", 0);
    var t := if p < |s| then s[..p] + "E" + s[p + 1..] else s;
    if FindFrom(t, "E", 0) < |t| || t == [] then t
    else
      var q := FindFrom(t, "-+", 1);
      if q < |t| then t[..q] + "E" + t[q..] else t
  }

  lemma {:induction false} FindStops(a: seq<byte>, b: seq<byte>, chars: seq<byte>, p: nat)
    requires p <= |a| && b != [] && b[0] in chars
    requires forall i :: p <= i < |a| ==> a[i] !in chars
    ensures FindFrom(a + b, chars, p) == |a|
    decreases |a| - p
  {
    if p < |a| {
      FindStops(a, b, chars, p + 1);
    }
  }

  lemma {:induction false} FindsNone(s: seq<byte>, chars: seq<byte>, p: nat)
    requires p <= |s| && forall i :: p <= i < |s| ==> s[i] !in chars
    ensures FindFrom(s, chars, p) == |s|
    decreases |s| - p
  {
    if p < |s| {
      FindsNone(s, chars, p + 1);
    }
  }

  lemma {:induction false} RestoreD(head: seq<byte>, tail: seq<byte>)
    requires (forall i :: 0 <= i < |head| ==> head[i] != 'D' && head[i] != 'E')
    ensures RestoreMark(head + ("D" + tail)) == head + ("E" + tail)
  {
    var s := head + ("D" + tail);
    FindStops(head, "D" + tail, "D", 0);
    assert s[..|head|] == head && s[|head| + 1..] == tail;
    assert head + "E" + tail == head + ("E" + tail);
    FindStops(head, "E" + tail, "E", 0);
  }

  lemma {:induction false} RestoreNone(head: seq<byte>, tail: seq<byte>)
    requires (forall i :: 0 <= i < |head| ==> head[i] != 'D' && head[i] != 'E' && (i > 0 ==> head[i] !in "-+"))
    requires head != [] && tail != [] && tail[0] in "-+" && (forall i :: 0 <= i < |tail| ==> tail[i] != 'D' && tail[i] != 'E')
    ensures RestoreMark(head + tail) == head + ("E" + tail)
  {
    var s := head + tail;
    FindsNone(s, "D", 0);
    FindsNone(s, "E", 0);
    FindStops(head, tail, "-+", 1);
    assert s[..|head|] == head && s[|head|..] == tail;
    assert head + "E" + tail == head + ("E" + tail);
  }

  // A text that has a mark, or no sign behind its first char, is left as it is.
  lemma {:induction false} NothingRestored(s: seq<byte>)
    requires 'D' !in s && ('E' in s || forall i :: 0 < i < |s| ==> s[i] !in "-+")
    ensures RestoreMark(s) == s
  {
    FindsNone(s, "D", 0);
    if 'E' !in s && s != [] {
      FindsNone(s, "E", 0);
      FindsNone(s, "-+", 1);
    }
  }

  // The reader puts back the mark, whether a D was written or nothing.
  lemma {:induction false} MarkRestored(negative: bool, digits: seq<byte>, mark: seq<byte>, e: int)
    requires AllDigits(digits) && (mark == "D" || mark == "")
    ensures RestoreMark(Renormalised(negative, digits, mark, e)) == Renormalised(negative, digits, "E", e)
  {
    hide Exponent, RestoreMark;
    var head := Sign(negative) + ("0." + digits);
    var tail := Exponent(e + 1);
    assert Renormalised(negative, digits, mark, e) == head + (mark + tail);
    assert Renormalised(negative, digits, "E", e) == head + ("E" + tail);
    var d := ExponentDigits(e + 1);
    if mark == "D" {
      RestoreD(head, tail);
    } else {
      assert mark + tail == tail;
      RestoreNone(head, tail);
    }
  }

  // ------------------------------------------------------------------
  // The same number

  lemma {:induction false} SameNumber(negative: bool, digits: seq<byte>, e: int)
    requires AllDigits(digits) && |digits| > 0
    ensures Denoted(Renormalised(negative, digits, "E", e)) == Denoted(PrintfE(negative, digits, e))
  {
    hide Denoted, DigitsValue, Scientific;
    DenotedScientific(negative, "0", digits, "E", e + 1);
    DenotedScientific(negative, digits[..1], digits[1..], "E", e);
    assert digits[..1] + digits[1..] == digits;
    LeadingZeros(1, digits);
    assert seq(1, _ => '0') == "0";
  }

  // A float is written as the number printf gave.
  lemma {:induction false} RealKeepsValue(negative: bool, digits: seq<byte>, e: int)
    requires |digits| == 8 && AllDigits(digits) && -99 <= e <= 99
    ensures |PrintfE(negative, digits, e)| >= if negative then 11 else 10
    ensures
      var text := MakeReal(PrintfE(negative, digits, e), negative);
      text.Some? && Denoted(text.value) == Denoted(PrintfE(negative, digits, e))
  {
    hide MakeReal, Denoted, PrintfE, Renormalised;
    RealIsRenormalised(negative, digits, e);
    SameNumber(negative, digits, e);
  }

  // A double is read back as the number printf gave, for every sign and exponent.
  lemma {:induction false} DoubKeepsValue(negative: bool, digits: seq<byte>, e: int)
    requires |digits| == 14 && AllDigits(digits) && -999 <= e <= 999
    ensures |PrintfE(negative, digits, e)| >= if negative then 17 else 16
    ensures
      var text := MakeDoub(PrintfE(negative, digits, e), negative);
      text.Some? && Denoted(RestoreMark(text.value)) == Denoted(PrintfE(negative, digits, e))
  {
    hide MakeDoub, Denoted, PrintfE, RestoreMark, Renormalised;
    DoubIsRenormalised(negative, digits, e);
    MarkRestored(negative, digits, if -100 <= e < 99 then "D" else "", e);
    SameNumber(negative, digits, e);
  }

  // Without the mark strtod would stop at the exponent: the number is the same
  // only when the exponent is zero, which always has a mark.
  lemma {:induction false} MarkIsNeeded(negative: bool, digits: seq<byte>, e: int)
    requires AllDigits(digits) && |digits| > 0
    ensures Denoted(Renormalised(negative, digits, "", e)) == Denoted(PrintfE(negative, digits, e)) <==> e + 1 == 0
  {
    hide Denoted, DigitsValue, Scientific;
    SameNumber(negative, digits, e);
    DenotedScientific(negative, "0", digits, "E", e + 1);
    DenotedScientific(negative, "0", digits, "", e + 1);
  }

  // The texts fit in their columns with a blank before them.
  lemma {:induction false} TextsFit(negative: bool, digits: seq<byte>, e: int)
    ensures |digits| == 8 && -99 <= e + 1 <= 99 ==> |Renormalised(negative, digits, "E", e)| <= 15
    ensures |digits| == 14 && -999 <= e + 1 <= 999 ==>
      |Renormalised(negative, digits, if -100 <= e < 99 then "D" else "", e)| <= 21
  {
    hide Exponent;
    ExponentLength(e + 1);
  }
}
