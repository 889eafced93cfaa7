// The text that the printer gives a tree, char by char: which chars are escaped and how,
// and what the lines of a formatted object start with.

module JsonLayout {
  import opened Bytes
  import opened JsonText

  // ------------------------------------------------------------------
  // Strings

  /** The text of one char of a string. */
  ghost predicate EscapeOf(c: byte, e: seq<byte>) {
    var n := c as int;
    if n == 34 then e == "\\\""
    else if n == 92 then e == "\\\\"
    else if n == 8 then e == "\\b"
    else if n == 9 then e == "\\t"
    else if n == 10 then e == "\\n"
    else if n == 12 then e == "\\f"
    else if n == 13 then e == "\\r"
    else if n < 16 then |e| == 6 && e[..5] == "\\u000" && e[5] == "0123456789abcdef"[n]
    else if n < 32 then |e| == 6 && e[..5] == "\\u001" && e[5] == "0123456789abcdef"[n - 16]
    else e == [c]
  }

  lemma {:induction false} EscapeIs(c: byte)
    ensures EscapeOf(c, EscapeChar(c))
  {
    var n := c as int;
    if n < 32 {
      var d := n % 16;
      assert HexDigit(d) == "0123456789abcdef"[d];
      var e := "\\u00" + [HexDigit(n / 16), HexDigit(d)];
      assert e[5] == HexDigit(d) && e[..5] == if n < 16 then "\\u000" else "\\u001";
    }
  }

  /** The parts of a quoted string, one for each of its chars. */
  ghost predicate QuotedAs(s: seq<byte>, parts: seq<seq<byte>>) {
    |parts| == |s| && forall i :: 0 <= i < |s| ==> EscapeOf(s[i], parts[i])
  }

  ghost function Joined(parts: seq<seq<byte>>): seq<byte> {
    if parts == [] then [] else parts[0] + Joined(parts[1..])
  }

  // A string is printed between quotes, char by char.
  lemma {:induction false} QuoteIs(s: seq<byte>) returns (parts: seq<seq<byte>>)
    ensures QuotedAs(s, parts) && Quote(s) == "\"" + (Joined(parts) + "\"")
  {
    hide EscapeOf;
    parts := EscapeParts(s);
  }

  lemma {:induction false} EscapeParts(s: seq<byte>) returns (parts: seq<seq<byte>>)
    ensures QuotedAs(s, parts) && Escape(s) == Joined(parts)
  {
    hide EscapeOf, EscapeChar;
    if s == [] {
      parts := [];
    } else {
      var more := EscapeParts(s[1..]);
      EscapeIs(s[0]);
      parts := [EscapeChar(s[0])] + more;
    }
  }

  // ------------------------------------------------------------------
  // Arrays and objects

  ghost function Tabs(n: nat): seq<byte> {
    if n == 0 then "" else "\t" + Tabs(n - 1)
  }

  lemma {:induction false} TabsAre(n: nat)
    ensures Indent(true, n) == Tabs(n) && Indent(false, n) == ""
  {
    if n > 0 {
      TabsAre(n - 1);
      assert Indent(true, n) == "\t" + Indent(true, n - 1);
    }
  }

  /** The lines of a formatted object: as many tabs as it is deep, a key, a colon and a tab,
      a value, and a comma behind all but the last. */
  ghost function Lines(members: seq<Member>, depth: nat): seq<byte> {
    if members == [] then ""
    else
      Tabs(depth) + Quote(members[0].key) + ":\t" + Render(members[0].value, true, depth)
      + (if |members| == 1 then "\n" else ",\n") + Lines(members[1..], depth)
  }

  ghost function Pairs(members: seq<Member>, depth: nat): seq<byte> {
    if members == [] then ""
    else
      Quote(members[0].key) + ":" + Render(members[0].value, false, depth)
      + (if |members| == 1 then "" else ",") + Pairs(members[1..], depth)
  }

  ghost function Row(items: seq<Json>, fmt: bool, depth: nat): seq<byte> {
    if items == [] then ""
    else
      Render(items[0], fmt, depth) + (if |items| == 1 then "" else if fmt then ", " else ",")
      + Row(items[1..], fmt, depth)
  }

  lemma {:induction false} LinesAre(members: seq<Member>, depth: nat)
    ensures RenderMembers(members, true, depth) == Lines(members, depth)
  {
    hide Quote, Render, Indent, Tabs;
    if members != [] {
      LinesAre(members[1..], depth);
      TabsAre(depth);
      var a, b, c, d := Tabs(depth), Quote(members[0].key), Render(members[0].value, true, depth), Lines(members[1..], depth);
      Regroup(a, b, ":\t", c, if |members| == 1 then "\n" else ",\n", d);
    }
  }

  lemma {:induction false} PairsAre(members: seq<Member>, depth: nat)
    ensures RenderMembers(members, false, depth) == Pairs(members, depth)
  {
    hide Quote, Render, Indent, Tabs;
    if members != [] {
      PairsAre(members[1..], depth);
      TabsAre(depth);
      var b, c, d := Quote(members[0].key), Render(members[0].value, false, depth), Pairs(members[1..], depth);
      Regroup("", b, ":", c, if |members| == 1 then "" else ",", d);
    }
  }

  lemma Regroup(a: seq<byte>, b: seq<byte>, x: seq<byte>, c: seq<byte>, y: seq<byte>, d: seq<byte>)
    ensures a + (b + (x + (c + (y + d)))) == a + b + x + c + y + d
    ensures a == "" ==> a + (b + (x + (c + (y + d)))) == b + x + c + y + d
  {}

  lemma {:induction false} RowIs(items: seq<Json>, fmt: bool, depth: nat)
    ensures RenderItems(items, fmt, depth) == Row(items, fmt, depth)
  {
    hide Render;
    if items != [] {
      RowIs(items[1..], fmt, depth);
      Assoc(Render(items[0], fmt, depth), if |items| == 1 then "" else if fmt then ", " else ",", Row(items[1..], fmt, depth));
    }
  }

  // A formatted object opens a line for each member, one deeper than itself, and closes at
  // its own depth; without formatting, and in arrays, there are no lines.
  lemma {:induction false} RenderIs(t: Json, depth: nat)
    ensures t.Object? ==>
      && Render(t, true, depth) == "{\n" + Lines(t.members, depth + 1) + Tabs(depth) + "}"
      && Render(t, false, depth) == "{" + Pairs(t.members, depth + 1) + "}"
    ensures t.Array? ==> forall fmt :: Render(t, fmt, depth) == "[" + Row(t.items, fmt, depth + 1) + "]"
    ensures t.Null? ==> forall fmt :: Render(t, fmt, depth) == "null"
    ensures t.False? ==> forall fmt :: Render(t, fmt, depth) == "false"
    ensures t.True? ==> forall fmt :: Render(t, fmt, depth) == "true"
  {
    hide Lines, Pairs, Row, Tabs, RenderMembers, RenderItems, Indent;
    if t.Object? {
      LinesAre(t.members, depth + 1);
      PairsAre(t.members, depth + 1);
      TabsAre(depth);
      var x, y := Lines(t.members, depth + 1), Pairs(t.members, depth + 1);
      assert "{" + ("\n" + (x + (Tabs(depth) + "}"))) == "{\n" + x + Tabs(depth) + "}";
      assert "{" + ("" + (y + ("" + "}"))) == "{" + y + "}";
    } else if t.Array? {
      forall fmt ensures Render(t, fmt, depth) == "[" + Row(t.items, fmt, depth + 1) + "]" {
        RowIs(t.items, fmt, depth + 1);
        Assoc("[", Row(t.items, fmt, depth + 1), "]");
      }
    }
  }

  // ------------------------------------------------------------------
  // Numbers

  /** The chars that are copied for a number. */
  lemma NumberCharIs(c: byte)
    ensures NumberChar(c) <==> '0' <= c <= '9' || c == '+' || c == '-' || c == 'e' || c == 'E' || c == '.'
  {}

  predicate Digits(d: seq<byte>) { forall i :: 0 <= i < |d| ==> '0' <= d[i] <= '9' }

  predicate NoDigitFirst(s: seq<byte>) { s == [] || !('0' <= s[0] <= '9') }

  lemma {:induction false} RunOfDigits(d: seq<byte>, rest: seq<byte>)
    requires Digits(d) && NoDigitFirst(rest)
    ensures DigitRun(d + rest) == |d|
  {
    if d == [] {
      assert d + rest == rest;
    } else {
      assert (d + rest)[0] == d[0] && (d + rest)[1..] == d[1..] + rest;
      RunOfDigits(d[1..], rest);
    }
  }

  /** A point and some digits, or nothing. */
  predicate Fraction(f: seq<byte>) { f == "" || (f[0] == '.' && Digits(f[1..])) }

  /** An e, a sign or none, and at least one digit; or nothing. */
  predicate Exponent(e: seq<byte>) {
    e == "" ||
    ((e[0] == 'e' || e[0] == 'E')
     && ((|e| > 1 && Digits(e[1..])) || (|e| > 2 && (e[1] == '+' || e[1] == '-') && Digits(e[2..]))))
  }

  // Of a sign, digits around a point, and an exponent, strtod takes all, and nothing of
  // what follows that cannot go on with them.
  lemma {:induction false} StrtodTakes(sign: seq<byte>, whole: seq<byte>, f: seq<byte>, e: seq<byte>, rest: seq<byte>)
    requires sign == "" || sign == "-" || sign == "+"
    requires Digits(whole) && Fraction(f) && Exponent(e) && (whole != "" || |f| > 1)
    requires NoDigitFirst(rest) && (e == "" && rest != [] ==> rest[0] != 'e' && rest[0] != 'E')
    requires f == "" && e == "" && rest != [] ==> rest[0] != '.'
    ensures StrtodLength(sign + (whole + (f + (e + rest)))) == |sign| + |whole| + |f| + |e|
  {
    hide *;
    Follows(f, e, rest);
    MantissaTaken(sign, whole, f, e + rest);
    ExponentTaken(e, rest);
  }

  lemma {:induction false} MantissaTaken(sign: seq<byte>, whole: seq<byte>, f: seq<byte>, tail: seq<byte>)
    requires sign == "" || sign == "-" || sign == "+"
    requires Digits(whole) && Fraction(f) && (whole != "" || |f| > 1)
    requires NoDigitFirst(f + tail) && NoDigitFirst(tail) && (f == "" && tail != [] ==> tail[0] != '.')
    ensures StrtodLength(sign + (whole + (f + tail))) == |sign| + |whole| + |f| + ExponentLength(tail)
  {
    hide *;
    var s, p := sign + (whole + (f + tail)), |sign| + |whole|;
    assert |sign| == if s != [] && (s[0] == '-' || s[0] == '+') then 1 else 0 by {
      Starts(sign, whole, f, tail);
    }
    assert DigitRun(s[|sign|..]) == |whole| by {
      Parts(sign, whole, f, tail);
      RunOfDigits(whole, f + tail);
    }
    assert |f| > 0 ==> s[p] == '.' && DigitRun(s[p + 1..]) == |f| - 1 by {
      Parts(sign, whole, f, tail);
      FractionTaken(f, tail);
      BehindPoint(sign, whole, f, tail);
    }
    assert (|f| == 0 && p < |s| ==> s[p] != '.') && s[p + |f|..] == tail by {
      Parts(sign, whole, f, tail);
    }
    TakesMantissa(s, |sign|, |whole|, |f|);
  }

  lemma BehindPoint(sign: seq<byte>, whole: seq<byte>, f: seq<byte>, tail: seq<byte>)
    ensures f != "" ==> (sign + (whole + (f + tail)))[|sign| + |whole| + 1..] == f[1..] + tail
  {
    if f != "" {
      Parts(sign, whole, f, tail);
      Dropped(sign + (whole + (f + tail)), |sign| + |whole|, 1);
      assert (f + tail)[1..] == f[1..] + tail;
    }
  }

  lemma {:induction false} FractionTaken(f: seq<byte>, tail: seq<byte>)
    requires Fraction(f) && NoDigitFirst(tail)
    ensures f != "" ==> f[0] == '.' && DigitRun(f[1..] + tail) == |f| - 1
  {
    if f != "" {
      RunOfDigits(f[1..], tail);
    }
  }

  lemma {:induction false} Follows(f: seq<byte>, e: seq<byte>, rest: seq<byte>)
    requires Fraction(f) && Exponent(e) && NoDigitFirst(rest)
    requires f == "" && e == "" && rest != [] ==> rest[0] != '.'
    ensures NoDigitFirst(f + (e + rest)) && NoDigitFirst(e + rest)
    ensures f == "" && e + rest != [] ==> (e + rest)[0] != '.'
  {
    var tail := e + rest;
    assert e != "" ==> tail[0] == e[0];
    assert e == "" ==> tail == rest;
    assert f != "" ==> (f + tail)[0] == f[0];
    assert f == "" ==> f + tail == tail;
  }

  // What strtod takes behind the digits and the point.
  function ExponentLength(s: seq<byte>): nat {
    if s != [] && (s[0] == 'e' || s[0] == 'E') then
      var r := if 1 < |s| && (s[1] == '-' || s[1] == '+') then 2 else 1;
      var n := DigitRun(s[r..]);
      if n > 0 then r + n else 0
    else 0
  }

  lemma {:induction false} ExponentTaken(e: seq<byte>, rest: seq<byte>)
    requires Exponent(e) && NoDigitFirst(rest) && (e == "" && rest != [] ==> rest[0] != 'e' && rest[0] != 'E')
    ensures ExponentLength(e + rest) == |e|
  {
    hide DigitRun;
    if e == "" {
      assert e + rest == rest;
    } else {
      var r := if e[1] == '+' || e[1] == '-' then 2 else 1;
      assert (e + rest)[r..] == e[r..] + rest;
      RunOfDigits(e[r..], rest);
    }
  }

  lemma {:induction false} TakesMantissa(s: seq<byte>, sign: nat, whole: nat, f: nat)
    requires sign + whole + f <= |s| && whole + f > 0 && !(whole == 0 && f == 1)
    requires sign == if s != [] && (s[0] == '-' || s[0] == '+') then 1 else 0
    requires DigitRun(s[sign..]) == whole
    requires f > 0 ==> s[sign + whole] == '.' && DigitRun(s[sign + whole + 1..]) == f - 1
    requires f == 0 && sign + whole < |s| ==> s[sign + whole] != '.'
    ensures StrtodLength(s) == sign + whole + f + ExponentLength(s[sign + whole + f..])
  {
    hide DigitRun;
    var q := sign + whole + f;
    assert q < |s| ==> s[q..][1..] == s[q + 1..] && s[q..][0] == s[q];
    assert q + 1 < |s| ==> s[q..][2..] == s[q + 2..] && s[q..][1] == s[q + 1];
  }

  lemma Parts(sign: seq<byte>, whole: seq<byte>, f: seq<byte>, tail: seq<byte>)
    ensures var s, p := sign + (whole + (f + tail)), |sign| + |whole|;
      && s[|sign|..] == whole + (f + tail) && s[p..] == f + tail && s[p + |f|..] == tail
      && (f != "" ==> s[p] == f[0]) && (f == "" && tail != [] ==> s[p] == tail[0])
  {
    var s := sign + (whole + (f + tail));
    SplitAt(sign, whole + (f + tail));
    SplitAt(whole, f + tail);
    Dropped(s, |sign|, |whole|);
    SplitAt(f, tail);
    Dropped(s, |sign| + |whole|, |f|);
  }

  lemma Starts(sign: seq<byte>, whole: seq<byte>, f: seq<byte>, tail: seq<byte>)
    requires sign == "" || sign == "-" || sign == "+"
    requires Digits(whole) && Fraction(f) && (whole != "" || |f| > 1)
    ensures var s := sign + (whole + (f + tail));
      && s != [] && (sign == "" <==> s[0] != '-' && s[0] != '+')
  {
    var s := sign + (whole + (f + tail));
    if sign == "" {
      assert s[0] == if whole != "" then whole[0] else '.';
    } else {
      assert s[0] == sign[0];
    }
  }

  // Without a digit there is no number.
  lemma {:induction false} NoNumber(sign: seq<byte>, rest: seq<byte>)
    requires (sign == "" && (rest == [] || (rest[0] != '-' && rest[0] != '+'))) || sign == "-" || sign == "+"
    requires NoDigitFirst(rest) && (rest != [] && rest[0] == '.' ==> NoDigitFirst(rest[1..]))
    ensures StrtodLength(sign + rest) == 0
  {
    var s := sign + rest;
    assert s[|sign|..] == rest;
    if rest != [] && rest[0] == '.' {
      assert s[|sign| + 1..] == rest[1..];
    }
  }
}
