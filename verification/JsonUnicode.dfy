// Unicode in JSON strings: the UTF-8 form of a code point, the \u escapes that
// stand for it, and how much room the unescaped text takes.

module JsonUnicode {
  import opened Bytes
  import opened JsonText
  import opened JsonParse

  // ------------------------------------------------------------------
  // UTF-8

  /** A code point that UTF-8 can hold: not a surrogate (section 3 of RFC 3629). */
  predicate Scalar(cp: nat) {
    cp <= 0x10FFFF && !(0xD800 <= cp <= 0xDFFF)
  }

  predicate Tail(c: byte) { 0x80 <= c as int <= 0xBF }

  /** A decoder after section 4 of RFC 3629: the code point at the front of s and its length. */
  function DecodeUtf8(s: seq<byte>): Escaped {
    if |s| < 1 then BadEscape
    else
      var a := s[0] as int;
      if a < 0x80 then CodePoint(a, 1)
      else if |s| < 2 || !Tail(s[1]) || a < 0xC2 then BadEscape
      else
        var b := s[1] as int - 0x80;
        if a < 0xE0 then CodePoint((a - 0xC0) * 0x40 + b, 2)
        else if |s| < 3 || !Tail(s[2]) || (a == 0xE0 && b < 0x20) || (a == 0xED && b >= 0x20) then BadEscape
        else
          var c := s[2] as int - 0x80;
          if a < 0xF0 then CodePoint(((a - 0xE0) * 0x40 + b) * 0x40 + c, 3)
          else if |s| < 4 || !Tail(s[3]) || (a == 0xF0 && b < 0x10) || (a == 0xF4 && b >= 0x10) || a > 0xF4 then BadEscape
          else CodePoint((((a - 0xF0) * 0x40 + b) * 0x40 + c) * 0x40 + (s[3] as int - 0x80), 4)
  }

  // The encoder writes the one well-formed UTF-8 form of every scalar value,
  // whatever follows it.
  lemma {:induction false} Utf8RoundTrip(cp: nat, rest: seq<byte>)
    requires Scalar(cp)
    ensures DecodeUtf8(Utf8(cp) + rest) == CodePoint(cp, |Utf8(cp)|)
  {
    var s := Utf8(cp) + rest;
    assert s[..|Utf8(cp)|] == Utf8(cp);
    assert forall i :: 0 <= i < |Utf8(cp)| ==> s[i] == Utf8(cp)[i];
    if 0x800 <= cp < 0x10000 {
      Digits64(cp);
    } else if cp >= 0x10000 {
      Digits64(cp);
      Digits64(cp / 0x40);
    }
  }

  lemma Digits64(n: nat)
    ensures n == (n / 0x1000 * 0x40 + n / 0x40 % 0x40) * 0x40 + n % 0x40
    ensures n / 0x40 / 0x1000 == n / 0x40000 && n / 0x40 / 0x40 == n / 0x1000
  {}

  // Nothing else is well-formed: what the decoder takes is what the encoder writes.
  lemma {:induction false} OnlyUtf8(s: seq<byte>)
    requires DecodeUtf8(s).CodePoint?
    ensures
      var d := DecodeUtf8(s);
      Scalar(d.cp) && |Utf8(d.cp)| == d.length <= |s| && s[..d.length] == Utf8(d.cp)
  {
    var d := DecodeUtf8(s);
    if d.length == 3 {
      ThreeBytes(s[0] as int - 0xE0, s[1] as int - 0x80, s[2] as int - 0x80);
      assert s[..3] == [s[0], s[1], s[2]];
    } else if d.length == 4 {
      FourBytes(s[0] as int - 0xF0, s[1] as int - 0x80, s[2] as int - 0x80, s[3] as int - 0x80);
      assert s[..4] == [s[0], s[1], s[2], s[3]];
    }
    hide Utf8;
  }

  lemma ThreeBytes(a: nat, b: nat, c: nat)
    requires a < 0x10 && b < 0x40 && c < 0x40 && (a == 0 ==> b >= 0x20)
    ensures Utf8((a * 0x40 + b) * 0x40 + c) == [(0xE0 + a) as char, (0x80 + b) as char, (0x80 + c) as char]
  {
    Base64(a, b, c);
  }

  lemma FourBytes(a: nat, b: nat, c: nat, d: nat)
    requires a < 5 && b < 0x40 && c < 0x40 && d < 0x40 && (a == 0 ==> b >= 0x10) && (a == 4 ==> b < 0x10)
    ensures Utf8(((a * 0x40 + b) * 0x40 + c) * 0x40 + d)
         == [(0xF0 + a) as char, (0x80 + b) as char, (0x80 + c) as char, (0x80 + d) as char]
  {
    Base64(a * 0x40 + b, c, d);
    Base64(0, a, b);
  }

  lemma Base64(a: nat, b: nat, c: nat)
    requires b < 0x40 && c < 0x40
    ensures var n := (a * 0x40 + b) * 0x40 + c;
      n / 0x1000 == a && n / 0x40 == a * 0x40 + b && n / 0x40 % 0x40 == b && n % 0x40 == c && n / 0x40000 == a / 0x40
  {}

  // ------------------------------------------------------------------
  // \u escapes

  function HexDigits(h: nat): (s: seq<byte>)
    requires h < 0x10000
    ensures |s| == 4
  {
    [HexDigit(h / 0x1000), HexDigit(h / 0x100 % 0x10), HexDigit(h / 0x10 % 0x10), HexDigit(h % 0x10)]
  }

  lemma {:induction false} Hex4OfDigits(h: nat)
    requires h < 0x10000
    ensures Hex4(HexDigits(h)) == h
  {
    hide HexDigit, HexValue;
    HexOfDigit(h / 0x1000);
    HexOfDigit(h / 0x100 % 0x10);
    HexOfDigit(h / 0x10 % 0x10);
    HexOfDigit(h % 0x10);
    HexValueOf(h);
  }

  lemma {:induction false} HexValueOf(h: nat)
    ensures h == 16 * (16 * (16 * (h / 0x1000) + h / 0x100 % 0x10) + h / 0x10 % 0x10) + h % 0x10
  {
    Sixteenths(h, 0x10);
    Sixteenths(h, 0x100);
  }

  lemma {:induction false} Sixteenths(h: nat, p: nat)
    requires p == 0x10 || p == 0x100
    ensures h / p == 16 * (h / (16 * p)) + h / p % 16
  {
    assert h / (16 * p) == h / p / 16;
  }

  lemma HexOfDigit(d: nat)
    requires d < 16
    ensures HexValue(HexDigit(d)) == d
  {}

  /** The escape of a code point: one \u sequence, or two for the pair of
      surrogates above the basic plane (section 7 of RFC 8259). */
  function UnicodeEscape(cp: nat): (s: seq<byte>)
    requires Scalar(cp)
  {
    if cp < 0x10000 then "\\u" + HexDigits(cp)
    else
      "\\u" + HexDigits(0xD800 + (cp - 0x10000) / 0x400) + "\\u" + HexDigits(0xDC00 + (cp - 0x10000) % 0x400)
  }

  lemma {:induction false} LiteralOfEscape(cp: nat, rest: seq<byte>)
    requires Scalar(cp)
    ensures Utf16Literal(UnicodeEscape(cp) + rest) == CodePoint(cp, |UnicodeEscape(cp)|)
  {
    hide HexDigits, Hex4;
    var body := UnicodeEscape(cp) + rest;
    if cp < 0x10000 {
      Hex4OfDigits(cp);
      assert body[2..6] == HexDigits(cp);
    } else {
      var high := 0xD800 + (cp - 0x10000) / 0x400;
      var low := 0xDC00 + (cp - 0x10000) % 0x400;
      Hex4OfDigits(high);
      Hex4OfDigits(low);
      assert body[2..6] == HexDigits(high);
      assert body[8..12] == HexDigits(low);
    }
  }

  // The escape of every scalar value is unescaped to its UTF-8 form.
  lemma {:induction false} EscapeMeansScalar(cp: nat, rest: seq<byte>)
    requires Scalar(cp)
    ensures Unescape(UnicodeEscape(cp) + rest) == Prepend(Utf8(cp), Unescape(rest))
  {
    hide Utf16Literal, HexDigits, Utf8, Prepend;
    LiteralOfEscape(cp, rest);
    var e := UnicodeEscape(cp);
    assert e[0] == '\\' && e[1] == 'u';
    assert (e + rest)[|e|..] == rest;
  }

  // ------------------------------------------------------------------
  // Digits of either case

  const LOWER: seq<byte> := "0123456789abcdef"
  const UPPER: seq<byte> := "0123456789ABCDEF"

  /** Four chars that show the digits of a number, each in either case. */
  ghost predicate Shows(s: seq<byte>, d0: nat, d1: nat, d2: nat, d3: nat)
    requires d0 < 16 && d1 < 16 && d2 < 16 && d3 < 16
  {
    && |s| == 4
    && (s[0] == LOWER[d0] || s[0] == UPPER[d0]) && (s[1] == LOWER[d1] || s[1] == UPPER[d1])
    && (s[2] == LOWER[d2] || s[2] == UPPER[d2]) && (s[3] == LOWER[d3] || s[3] == UPPER[d3])
  }

  lemma EitherCase(c: byte, d: nat)
    requires d < 16 && (c == LOWER[d] || c == UPPER[d])
    ensures HexValue(c) == d
  {
    assert d < 10 ==> LOWER[d] as int == 48 + d && UPPER[d] as int == 48 + d;
    assert d >= 10 ==> LOWER[d] as int == 87 + d && UPPER[d] as int == 55 + d;
  }

  lemma {:induction false} HexOfShown(s: seq<byte>, d0: nat, d1: nat, d2: nat, d3: nat)
    requires d0 < 16 && d1 < 16 && d2 < 16 && d3 < 16 && Shows(s, d0, d1, d2, d3)
    ensures Hex4(s) == 4096 * d0 + 256 * d1 + 16 * d2 + d3
  {
    hide HexValue, LOWER, UPPER;
    EitherCase(s[0], d0);
    EitherCase(s[1], d1);
    EitherCase(s[2], d2);
    EitherCase(s[3], d3);
  }

  lemma {:induction false} DigitIsListed(c: byte)
    ensures HexValue(c) >= 0 ==> c in LOWER || c in UPPER
  {
    if '0' <= c <= '9' {
      assert LOWER[c as int - 48] == c;
    } else if 'A' <= c <= 'F' {
      assert UPPER[c as int - 55] == c;
    } else if 'a' <= c <= 'f' {
      assert LOWER[c as int - 87] == c;
    }
  }

  // A char that is no digit in either case makes the number zero.
  lemma {:induction false} NoDigit(s: seq<byte>, k: nat)
    requires |s| == 4 && k < 4 && s[k] !in LOWER && s[k] !in UPPER
    ensures Hex4(s) == 0
  {
    hide LOWER, UPPER;
    DigitIsListed(s[k]);
  }

  // One escape with digits of either case is the char they number, in UTF-8.
  lemma {:induction false} EscapeOfDigits(s: seq<byte>, d0: nat, d1: nat, d2: nat, d3: nat, rest: seq<byte>)
    requires d0 < 16 && d1 < 16 && d2 < 16 && d3 < 16 && Shows(s, d0, d1, d2, d3)
    ensures
      var cp := 4096 * d0 + 256 * d1 + 16 * d2 + d3;
      Scalar(cp) ==> Unescape("\\u" + (s + rest)) == Prepend(Utf8(cp), Unescape(rest))
  {
    hide Utf8, Prepend, Hex4, HexValue, LOWER, UPPER;
    var body := "\\u" + (s + rest);
    HexOfShown(s, d0, d1, d2, d3);
    assert body[2..6] == s && body[6..] == rest;
    assert body[0] == '\\' && body[1] == 'u';
  }

  // And two escapes that are a pair of surrogates are the char above the basic plane.
  lemma {:induction false} PairOfDigits(s: seq<byte>, d1: nat, d2: nat, d3: nat, t: seq<byte>, e1: nat, e2: nat, e3: nat,
                                        rest: seq<byte>)
    requires 8 <= d1 < 12 && d2 < 16 && d3 < 16 && Shows(s, 13, d1, d2, d3)
    requires 12 <= e1 < 16 && e2 < 16 && e3 < 16 && Shows(t, 13, e1, e2, e3)
    ensures
      var cp := 65536 + 1024 * (256 * (d1 - 8) + 16 * d2 + d3) + (256 * (e1 - 12) + 16 * e2 + e3);
      Scalar(cp) && Unescape("\\u" + (s + ("\\u" + (t + rest)))) == Prepend(Utf8(cp), Unescape(rest))
  {
    hide Utf8, Prepend, Hex4, HexValue, LOWER, UPPER;
    var body := "\\u" + (s + ("\\u" + (t + rest)));
    HexOfShown(s, 13, d1, d2, d3);
    HexOfShown(t, 13, e1, e2, e3);
    assert body[2..6] == s && body[8..12] == t && body[12..] == rest;
    assert body[0] == '\\' && body[1] == 'u' && body[6] == '\\' && body[7] == 'u';
  }

  // The other escapes, and none else.
  lemma {:induction false} LetterEscapes(c: byte, rest: seq<byte>)
    requires c != 'u'
    ensures
      var e := if c == 'b' then [8 as char] else if c == 'f' then [12 as char] else if c == 'n' then [10 as char]
        else if c == 'r' then [13 as char] else if c == 't' then [9 as char]
        else if c == '\"' then [34 as char] else if c == '\\' then [92 as char] else if c == '/' then [47 as char] else [];
      Unescape("\\" + ([c] + rest)) == if e == [] then BadText else Prepend(e, Unescape(rest))
  {
    hide Prepend;
    var body := "\\" + ([c] + rest);
    assert body[0] == '\\' && body[1] == c && body[2..] == rest;
  }

  // The three bytes of a byte order mark are skipped at the start of a text that goes on,
  // and nothing else is.
  lemma {:induction false} BomIs(text: seq<byte>)
    ensures
      var marked := |text| > 3 && text[0] as int == 239 && text[1] as int == 187 && text[2] as int == 191;
      SkipBom(text + [NUL]) == (if marked then text[3..] else text) + [NUL]
  {
    var s := text + [NUL];
    assert |s| >= 3 ==> s[..3] == [s[0], s[1], s[2]];
    assert |text| > 3 ==> s[3..] == text[3..] + [NUL];
  }

  // Whatever a \u escape stands for is a scalar value or a NUL for bad digits.
  lemma LiteralIsScalar(body: seq<byte>)
    ensures Utf16Literal(body).CodePoint? ==> Scalar(Utf16Literal(body).cp)
  {}

  // ------------------------------------------------------------------
  // Room for the unescaped text

  /** What the first pass counts as skipped from a place in the body, which is
      inside an escape if the scan took the char before as a backslash. */
  function Skips(body: seq<byte>, inside: bool): (n: nat)
    ensures n <= |body|
  {
    if body == [] then 0
    else if inside then Skips(body[1..], false)
    else if body[0] == '\\' then 1 + Skips(body[1..], true)
    else Skips(body[1..], false)
  }

  /** Whether the scan is inside an escape after these chars. */
  function EndsInside(body: seq<byte>, inside: bool): bool {
    if body == [] then inside
    else EndsInside(body[1..], !inside && body[0] == '\\')
  }

  lemma {:induction false} SkipsSplit(a: seq<byte>, b: seq<byte>, inside: bool)
    ensures Skips(a + b, inside) == Skips(a, inside) + Skips(b, EndsInside(a, inside))
    ensures EndsInside(a + b, inside) == EndsInside(b, EndsInside(a, inside))
    decreases |a|
  {
    if a == [] {
      assert a + b == b;
    } else {
      SkipsSplit(a[1..], b, !inside && a[0] == '\\');
      assert (a + b)[1..] == a[1..] + b;
    }
  }

  // The scan sees at most three escapes start in the six chars of a \u escape,
  // and only its own when all four digits are good.
  lemma {:induction false} SkipsInUnicode(s: seq<byte>, inside: bool)
    requires |s| == 6 && s[0] == '\\' && s[1] == 'u'
    ensures Skips(s, inside) <= 3
    ensures HexValue(s[2]) >= 0 && HexValue(s[3]) >= 0 && HexValue(s[4]) >= 0 && HexValue(s[5]) >= 0 ==>
      Skips(s, inside) <= 1 && !EndsInside(s, inside)
  {
    SkipsUnfold(s, inside);
    SkipsUnfold(s[1..], !inside);
    assert s[1..][1..] == s[2..] && s[2..][1..] == s[3..] && s[3..][1..] == s[4..] && s[4..][1..] == s[5..];
    assert s[1..][0] == 'u';
    var in2 := false;
    SkipsUnfold(s[2..], in2);
    var in3 := !in2 && s[2] == '\\';
    SkipsUnfold(s[3..], in3);
    var in4 := !in3 && s[3] == '\\';
    SkipsUnfold(s[4..], in4);
    var in5 := !in4 && s[4] == '\\';
    SkipsUnfold(s[5..], in5);
    assert s[5..][1..] == [];
  }

  lemma SkipsUnfold(s: seq<byte>, inside: bool)
    requires s != []
    ensures var next := !inside && s[0] == '\\';
      Skips(s, inside) == (if next then 1 else 0) + Skips(s[1..], next)
      && EndsInside(s, inside) == EndsInside(s[1..], next)
  {}

  // A \u escape takes more room than its UTF-8 form and the backslashes in it.
  lemma {:induction false} LiteralRoom(body: seq<byte>, inside: bool)
    requires |body| > 1 && body[0] == '\\' && body[1] == 'u' && Utf16Literal(body).CodePoint?
    ensures var lit := Utf16Literal(body);
      |Utf8(lit.cp)| + Skips(body[..lit.length], inside) <= lit.length
  {
    hide Skips, EndsInside, Utf8, HexValue;
    var lit := Utf16Literal(body);
    var a := body[..6];
    SkipsInUnicode(a, inside);
    HexNonzero(body[2..6]);
    if lit.length == 12 {
      var b := body[6..12];
      assert body[..12] == a + b;
      SkipsSplit(a, b, inside);
      HexNonzero(body[8..12]);
      assert b[2..6] == body[8..12] && a[2..6] == body[2..6];
      SkipsInUnicode(b, EndsInside(a, inside));
    }
  }

  lemma HexNonzero(s: seq<byte>)
    requires |s| == 4
    ensures Hex4(s) != 0 ==> HexValue(s[0]) >= 0 && HexValue(s[1]) >= 0 && HexValue(s[2]) >= 0 && HexValue(s[3]) >= 0
  {}

  // A round of the second pass writes no more than it takes, less the
  // backslashes the first pass counted there.
  lemma {:induction false} StepRoom(body: seq<byte>, inside: bool)
    requires body != [] && !EndsInside(body, inside) && UnescapeStep(body).Step?
    ensures var r := UnescapeStep(body);
      |r.out| + Skips(body[..r.length], inside) <= r.length
  {
    hide Utf16Literal, Utf8;
    SkipsUnfold(body, inside);
    if body[0] == '\\' && |body| > 1 {
      if body[1] == 'u' {
        LiteralRoom(body, inside);
      } else {
        SkipsUnfold(body[..2], inside);
        SkipsUnfold(body[..2][1..], !inside);
        assert body[..2][1..][1..] == [];
      }
    } else {
      SkipsUnfold(body[..1], inside);
      assert body[..1][1..] == [];
    }
  }

  // The unescaped text fits in what the first pass reserves: the length of the
  // body less the backslashes it counted. The second pass need not stop at the
  // same escapes as the first, because bad hex digits swallow backslashes.
  lemma {:induction false} UnescapeFits(body: seq<byte>, inside: bool)
    requires !EndsInside(body, inside)
    ensures Unescape(body).Text? ==> |Unescape(body).s| + Skips(body, inside) <= |body|
    decreases |body|
  {
    hide UnescapeStep;
    if body != [] && UnescapeStep(body).Step? {
      var n := UnescapeStep(body).length;
      StepRoom(body, inside);
      assert body == body[..n] + body[n..];
      SkipsSplit(body[..n], body[n..], inside);
      UnescapeFits(body[n..], EndsInside(body[..n], inside));
    }
  }
}
