// Parsing what was printed gives the tree back, formatted or not, exactly when
// the tree is nested no deeper than the parser allows.

module JsonRoundTrip {
  import opened Bytes
  import opened JsonText
  import opened JsonParse

  lemma TerminatedAfter(a: seq<byte>, b: seq<byte>)
    requires Terminated(b)
    ensures Terminated(a + b)
  {}

  // ------------------------------------------------------------------
  // Strings

  lemma {:induction false} ScanPlain(c: byte, rest: seq<byte>)
    requires c != '\"' && c != '\\' && ScanString(rest).Closed?
    ensures ScanString([c] + rest) == Closed([c] + ScanString(rest).body, ScanString(rest).rest)
  {
    SplitAt([c], rest);
  }

  lemma {:induction false} ScanPair(c: byte, rest: seq<byte>)
    requires ScanString(rest).Closed?
    ensures ScanString(['\\', c] + rest) == Closed(['\\', c] + ScanString(rest).body, ScanString(rest).rest)
  {
    SplitAt(['\\', c], rest);
  }

  lemma HexIsPlain(d: nat)
    requires d < 16
    ensures HexDigit(d) != '\"' && HexDigit(d) != '\\' && HexValue(HexDigit(d)) == d
  {}

  // A \u escape scans as one pair and four plain chars.
  lemma {:induction false} ScanUnicode(a: byte, b: byte, rest: seq<byte>)
    requires a != '\"' && a != '\\' && b != '\"' && b != '\\' && ScanString(rest).Closed?
    ensures ScanString("\\u00" + [a, b] + rest)
         == Closed("\\u00" + [a, b] + ScanString(rest).body, ScanString(rest).rest)
  {
    hide ScanString;
    var body := ScanString(rest).body;
    ScanPlain(b, rest);
    ScanPlain(a, [b] + rest);
    ScanPlain('0', [a] + ([b] + rest));
    ScanPlain('0', ['0'] + ([a] + ([b] + rest)));
    ScanPair('u', ['0'] + (['0'] + ([a] + ([b] + rest))));
    SpellUnicode(a, b, rest);
    SpellUnicode(a, b, body);
  }

  lemma SpellUnicode(a: byte, b: byte, rest: seq<byte>)
    ensures ['\\', 'u'] + (['0'] + (['0'] + ([a] + ([b] + rest)))) == "\\u00" + [a, b] + rest
  {}

  // Scanning does not stop inside an escaped char.
  lemma {:induction false} ScanEscapedChar(c: byte, rest: seq<byte>)
    requires ScanString(rest).Closed?
    ensures ScanString(EscapeChar(c) + rest)
         == Closed(EscapeChar(c) + ScanString(rest).body, ScanString(rest).rest)
  {
    hide ScanString;
    var e := EscapeChar(c);
    if |e| == 1 {
      ScanPlain(c, rest);
    } else if |e| == 2 {
      assert e == ['\\', e[1]];
      ScanPair(e[1], rest);
    } else {
      HexIsPlain(c as int / 16);
      HexIsPlain(c as int % 16);
      ScanUnicode(HexDigit(c as int / 16), HexDigit(c as int % 16), rest);
    }
  }

  lemma {:induction false} ScanEscaped(s: seq<byte>, post: seq<byte>)
    ensures ScanString(Escape(s) + ("\"" + post)) == Closed(Escape(s), post)
    decreases |s|
  {
    hide EscapeChar;
    if s == [] {
      assert Escape(s) + ("\"" + post) == "\"" + post;
      assert ("\"" + post)[1..] == post;
    } else {
      ScanEscaped(s[1..], post);
      Assoc(EscapeChar(s[0]), Escape(s[1..]), "\"" + post);
      ScanEscapedChar(s[0], Escape(s[1..]) + ("\"" + post));
    }
  }

  lemma HexZero()
    ensures HexValue('0') == 0
  {}

  lemma {:induction false} StepOfChar(c: byte, rest: seq<byte>)
    requires c != NUL
    ensures UnescapeStep(EscapeChar(c) + rest) == Step([c], |EscapeChar(c)|)
  {
    var e := EscapeChar(c);
    var s := e + rest;
    if |e| == 1 {
      assert s[..1] == e;
    } else if |e| == 6 {
      hide HexDigit, HexValue;
      assert s[2..6] == "00" + [HexDigit(c as int / 16), HexDigit(c as int % 16)];
      HexIsPlain(c as int / 16);
      HexIsPlain(c as int % 16);
      HexZero();
      assert Hex4(s[2..6]) == c as int;
    }
  }

  lemma {:induction false} UnescapeChar(c: byte, rest: seq<byte>)
    requires c != NUL
    ensures Unescape(EscapeChar(c) + rest) == Prepend([c], Unescape(rest))
  {
    hide EscapeChar, UnescapeStep;
    StepOfChar(c, rest);
    SplitAt(EscapeChar(c), rest);
  }

  // The unescaper undoes the escaper on every NUL-free string.
  lemma {:induction false} UnescapeEscaped(s: seq<byte>)
    requires NulFree(s)
    ensures Unescape(Escape(s)) == Text(s)
  {
    hide EscapeChar;
    if s != [] {
      UnescapeEscaped(s[1..]);
      hide Unescape;
      UnescapeChar(s[0], Escape(s[1..]));
      assert [s[0]] + s[1..] == s;
    }
  }

  lemma {:induction false} ParseQuoted(s: seq<byte>, post: seq<byte>)
    requires NulFree(s) && Terminated(post)
    ensures Terminated(Quote(s) + post)
    ensures ParseString(Quote(s) + post) == Str(s, post)
  {
    hide Escape, ScanString, Unescape;
    TerminatedAfter(Quote(s), post);
    assert Quote(s) + post == "\"" + (Escape(s) + ("\"" + post));
    assert (Quote(s) + post)[1..] == Escape(s) + ("\"" + post);
    ScanEscaped(s, post);
    UnescapeEscaped(s);
  }

  // ------------------------------------------------------------------
  // Numbers

  lemma {:induction false} RunOfNumber(t: seq<byte>, post: seq<byte>, limit: nat)
    requires forall i :: 0 <= i < |t| ==> NumberChar(t[i])
    requires |t| <= limit && post != [] && !NumberChar(post[0])
    ensures NumberRun(t + post, limit) == |t|
    decreases |t|
  {
    hide NumberChar;
    if t == [] {
      assert t + post == post;
    } else {
      RunOfNumber(t[1..], post, limit - 1);
      assert (t + post)[1..] == t[1..] + post;
    }
  }

  lemma {:induction false} ParseRenderedNumber(t: seq<byte>, post: seq<byte>)
    requires NumberText(t) && Terminated(post) && !NumberChar(post[0])
    ensures Terminated(t + post) && ParseNumber(t + post) == Done(Number(t), post)
  {
    hide StrtodLength, NumberChar;
    TerminatedAfter(t, post);
    RunOfNumber(t, post, 63);
    SplitAt(t, post);
  }

  // ------------------------------------------------------------------
  // Values

  /** What may follow a value: the end of the input or a separator, so that a
      number ends there. */
  predicate Follows(post: seq<byte>) {
    Terminated(post) && !NumberChar(post[0])
  }

  lemma FollowsEnds(post: seq<byte>)
    requires Follows(post)
    ensures Terminated(post)
  {}

  /** The first char of a value. */
  predicate ValueStart(c: byte) {
    c == 'n' || c == 'f' || c == 't' || c == '\"' || c == '-' || IsDigit(c) || c == '[' || c == '{'
  }

  lemma RenderStarts(t: Json, fmt: bool, k: nat)
    requires Printable(t)
    ensures Render(t, fmt, k) != [] && ValueStart(Render(t, fmt, k)[0])
  {}

  lemma {:induction false} SkipNothing(a: seq<byte>, post: seq<byte>)
    requires a != [] && a[0] as int > 32 && Terminated(post)
    ensures Terminated(a + post) && SkipWs(a + post) == a + post
  {
    TerminatedAfter(a, post);
  }

  lemma {:induction false} SkipBlanks(b: seq<byte>, s: seq<byte>)
    requires Blank(b) && Terminated(s)
    ensures Terminated(b + s) && SkipWs(b + s) == SkipWs(s)
    decreases |b|
  {
    TerminatedAfter(b, s);
    if b == [] {
      assert b + s == s;
    } else {
      SkipBlanks(b[1..], s);
      assert (b + s)[1..] == b[1..] + s;
    }
  }

  lemma {:induction false} ParseLiteral(s: seq<byte>, post: seq<byte>, d: nat)
    requires s == "null" || s == "false" || s == "true"
    requires Terminated(post)
    ensures Terminated(s + post)
    ensures ParseValue(s + post, d)
         == Done(if s == "null" then Null else if s == "false" then False else True, post)
  {
    TerminatedAfter(s, post);
    SplitAt(s, post);
    assert (s + post)[0] == s[0];
  }

  /** The outcome the parser is meant to have on a rendered value. */
  function Expected(t: Json, d: nat, post: seq<byte>): Parsed {
    if d + Nesting(t) <= NESTING_LIMIT then Done(t, post) else Fail
  }

  lemma {:induction false} ValueSelects(s: seq<byte>, d: nat)
    requires Terminated(s)
    ensures s[0] == '\"' ==> ParseValue(s, d) == match ParseString(s)
                                                case BadString => Fail
                                                case Str(t, rest) => Done(String(t), rest)
    ensures s[0] == '-' || IsDigit(s[0]) ==> ParseValue(s, d) == ParseNumber(s)
    ensures s[0] == '[' ==> ParseValue(s, d) == ParseArray(s, d)
    ensures s[0] == '{' ==> ParseValue(s, d) == ParseObject(s, d)
  {
    hide ParseString, ParseNumber, ParseArray, ParseObject;
    assert StartsWith(s, "null") ==> s[0] == s[..4][0] == 'n';
    assert StartsWith(s, "false") ==> s[0] == s[..5][0] == 'f';
    assert StartsWith(s, "true") ==> s[0] == s[..4][0] == 't';
  }

  // Parsing a printed value returns the value and stops right after it, unless
  // it is nested too deep; then it fails.
  lemma {:induction false} ParseRendered(t: Json, fmt: bool, k: nat, d: nat, post: seq<byte>)
    requires Printable(t) && Follows(post) && d <= NESTING_LIMIT
    ensures Terminated(Render(t, fmt, k) + post)
    ensures ParseValue(Render(t, fmt, k) + post, d) == Expected(t, d, post)
    decreases t, 1
  {
    hide ParseValue, ParseArray, ParseObject, ParseString, ParseNumber, NumberText, Quote, RenderItems, RenderMembers;
    TerminatedAfter(Render(t, fmt, k), post);
    match t
    case Null => ParseLiteral("null", post, d);
    case False => ParseLiteral("false", post, d);
    case True => ParseLiteral("true", post, d);
    case Number(text) =>
      ParseRenderedNumber(text, post);
      NumberStarts(text);
      ValueSelects(text + post, d);
    case String(s) =>
      ParseQuoted(s, post);
      QuoteStarts(s);
      ValueSelects(Quote(s) + post, d);
    case Array(items) =>
      ParseRenderedArray(items, fmt, k, d, post);
      ValueSelects(Render(t, fmt, k) + post, d);
    case Object(members) =>
      ParseRenderedObject(members, fmt, k, d, post);
      ValueSelects(Render(t, fmt, k) + post, d);
  }

  lemma NumberStarts(t: seq<byte>)
    requires NumberText(t)
    ensures t != [] && (t[0] == '-' || IsDigit(t[0]))
  {}

  lemma QuoteStarts(s: seq<byte>)
    ensures Quote(s) != [] && Quote(s)[0] == '\"'
  {}

  lemma {:induction false} ArrayRound(s: seq<byte>, d: nat, inner: seq<byte>)
    requires Terminated(s) && s[0] == '[' && Terminated(s[1..]) && SkipWs(s[1..]) == inner
    ensures d >= NESTING_LIMIT ==> ParseArray(s, d) == Fail
    ensures d < NESTING_LIMIT && inner[0] == ']' ==> ParseArray(s, d) == Done(Array([]), inner[1..])
    ensures d < NESTING_LIMIT && inner[0] != ']' ==>
      ParseArray(s, d) == (var r := ParseItems(inner, d + 1);
        if r.FailItems? then Fail else Done(Array(r.items), r.rest))
  {
    hide ParseItems, SkipWs;
  }

  lemma {:induction false} ParseRenderedArray(items: seq<Json>, fmt: bool, k: nat, d: nat, post: seq<byte>)
    requires PrintableItems(items) && Follows(post) && d <= NESTING_LIMIT
    ensures Terminated(Render(Array(items), fmt, k) + post)
    ensures ParseArray(Render(Array(items), fmt, k) + post, d) == Expected(Array(items), d, post)
    decreases items, 3
  {
    hide ParseItems, ParseArray, NumberChar, SkipWs, PrintableItems, RenderItems, Render, Terminated;
    FollowsEnds(post);
    TerminatedAfter(Render(Array(items), fmt, k), post);
    ArrayText(items, fmt, k, post);
    ArrayRound(Render(Array(items), fmt, k) + post, d, RenderItems(items, fmt, k + 1) + ("]" + post));
    if d < NESTING_LIMIT && items != [] {
      ParseRenderedItems(items, fmt, k + 1, d + 1, post);
    }
  }

  lemma {:induction false} ArrayText(items: seq<Json>, fmt: bool, k: nat, post: seq<byte>)
    requires PrintableItems(items) && Terminated(post)
    ensures
      var s := Render(Array(items), fmt, k) + post;
      var inner := RenderItems(items, fmt, k + 1) + ("]" + post);
      && s != [] && s[0] == '[' && s[1..] == inner && Terminated(inner) && SkipWs(inner) == inner
      && (items == [] ==> inner[0] == ']' && inner[1..] == post)
      && (items != [] ==> inner[0] != ']')
  {
    hide RenderItems, PrintableItems;
    var inner := RenderItems(items, fmt, k + 1) + ("]" + post);
    Assoc("[", RenderItems(items, fmt, k + 1) + "]", post);
    Assoc(RenderItems(items, fmt, k + 1), "]", post);
    SplitAt("[", inner);
    TerminatedAfter("]", post);
    TerminatedAfter(RenderItems(items, fmt, k + 1), "]" + post);
    if items == [] {
      NoItems(items, fmt, k + 1);
      assert [] + ("]" + post) == "]" + post;
      SkipNothing("]", post);
      SplitAt("]", post);
    } else {
      ItemsStart(items, fmt, k + 1);
      SkipNothing(RenderItems(items, fmt, k + 1), "]" + post);
    }
  }

  lemma {:induction false} ItemsStart(items: seq<Json>, fmt: bool, k: nat)
    requires PrintableItems(items) && items != []
    ensures var r := RenderItems(items, fmt, k);
      r != [] && r[0] as int > 32 && r[0] != ']'
  {
    hide Render;
    RenderStarts(items[0], fmt, k);
  }

  /** What the loop of parse_array makes of an item and the text behind it. */
  function ThenItems(v: Json, after: seq<byte>, d: nat): ParsedItems
    requires Terminated(after)
  {
    if after[0] == ',' then
      match ParseItems(after[1..], d)
      case FailItems => FailItems
      case DoneItems(items, end) => DoneItems([v] + items, end)
    else if after[0] == ']' then DoneItems([v], after[1..])
    else FailItems
  }

  // One round of the loop of parse_array.
  lemma {:induction false} ItemsRound(s: seq<byte>, d: nat)
    requires Terminated(s)
    ensures ParseValue(SkipWs(s), d).Fail? ==> ParseItems(s, d) == FailItems
    ensures ParseValue(SkipWs(s), d).Done? ==>
      ParseItems(s, d) == ThenItems(ParseValue(SkipWs(s), d).value, SkipWs(ParseValue(SkipWs(s), d).rest), d)
  {
    hide ParseValue, SkipWs;
  }

  lemma {:induction false} ParseRenderedItems(items: seq<Json>, fmt: bool, k: nat, d: nat, post: seq<byte>)
    requires PrintableItems(items) && items != [] && Terminated(post) && 0 < d <= NESTING_LIMIT
    ensures Terminated(RenderItems(items, fmt, k) + ("]" + post))
    ensures ParseItems(RenderItems(items, fmt, k) + ("]" + post), d)
         == if d + ItemsNesting(items) <= NESTING_LIMIT then DoneItems(items, post) else FailItems
    decreases items, 2
  {
    hide ParseValue, ParseItems, Printable, Render, SkipWs, Nesting, RenderItems, AfterItem, NumberChar;
    var after := AfterItem(items, fmt, k, post);
    FirstItem(items, fmt, k, post);
    AfterItemFollows(items, fmt, k, post);
    ItemsRound(RenderItems(items, fmt, k) + ("]" + post), d);
    ParseRendered(items[0], fmt, k, d, after);
    assert [items[0]] + items[1..] == items;
    if |items| == 1 {
      assert ItemsNesting(items[1..]) == 0;
    } else {
      ParseRenderedItems(items[1..], fmt, k, d, post);
      SkipSeparator(items, fmt, k, d, post);
    }
  }

  /** What follows the first item. */
  function AfterItem(items: seq<Json>, fmt: bool, k: nat, post: seq<byte>): seq<byte>
    requires items != []
  {
    ItemSeparator(|items| > 1, fmt) + (RenderItems(items[1..], fmt, k) + ("]" + post))
  }

  // The text of items is that of the first, and then a separator or the bracket.
  lemma {:induction false} FirstItem(items: seq<Json>, fmt: bool, k: nat, post: seq<byte>)
    requires PrintableItems(items) && items != [] && Terminated(post)
    ensures
      var s := RenderItems(items, fmt, k) + ("]" + post);
      var after := AfterItem(items, fmt, k, post);
      && s == Render(items[0], fmt, k) + after
      && Terminated(s) && SkipWs(s) == s && Follows(after)
  {
    hide Render, Printable, AfterItem, RenderItems;
    RenderStarts(items[0], fmt, k);
    FirstItemText(items, fmt, k, post);
    AfterItemFollows(items, fmt, k, post);
    SkipNothing(Render(items[0], fmt, k), AfterItem(items, fmt, k, post));
  }

  lemma {:induction false} AfterItemFollows(items: seq<Json>, fmt: bool, k: nat, post: seq<byte>)
    requires items != [] && Terminated(post)
    ensures
      var after := AfterItem(items, fmt, k, post);
      && Follows(after) && SkipWs(after) == after
      && (|items| == 1 ==> after[0] == ']' && after[1..] == post)
      && (|items| > 1 ==> after[0] == ',')
  {
    hide RenderItems;
    var tail := RenderItems(items[1..], fmt, k) + ("]" + post);
    TerminatedAfter("]", post);
    TerminatedAfter(RenderItems(items[1..], fmt, k), "]" + post);
    if |items| == 1 {
      NoItems(items[1..], fmt, k);
      assert ItemSeparator(false, fmt) + ([] + ("]" + post)) == "]" + post;
      SkipNothing("]", post);
      SplitAt("]", post);
    } else {
      SkipNothing(ItemSeparator(true, fmt), tail);
    }
  }

  lemma NoItems(items: seq<Json>, fmt: bool, k: nat)
    requires items == []
    ensures RenderItems(items, fmt, k) == []
  {}

  lemma {:induction false} FirstItemText(items: seq<Json>, fmt: bool, k: nat, post: seq<byte>)
    requires items != []
    ensures RenderItems(items, fmt, k) + ("]" + post)
         == Render(items[0], fmt, k) + AfterItem(items, fmt, k, post)
  {
    hide Render, ItemSeparator;
    var v := Render(items[0], fmt, k);
    var sep := ItemSeparator(|items| > 1, fmt);
    var tail := RenderItems(items[1..], fmt, k);
    assert RenderItems(items, fmt, k) == v + (sep + tail);
    Assoc(v, sep + tail, "]" + post);
    Assoc(sep, tail, "]" + post);
  }

  // The blank after the comma of formatted text is skipped by the next item.
  lemma {:induction false} SkipSeparator(items: seq<Json>, fmt: bool, k: nat, d: nat, post: seq<byte>)
    requires PrintableItems(items) && |items| > 1 && Terminated(post)
    ensures var others := RenderItems(items[1..], fmt, k) + ("]" + post);
      var rest := AfterItem(items, fmt, k, post)[1..];
      && Terminated(others) && Terminated(rest)
      && ParseItems(rest, d) == ParseItems(others, d)
  {
    hide ParseValue, RenderItems, ParseItems;
    var others := RenderItems(items[1..], fmt, k) + ("]" + post);
    var blank := if fmt then " " else "";
    TerminatedAfter("]", post);
    TerminatedAfter(RenderItems(items[1..], fmt, k), "]" + post);
    SkipBlanks(blank, others);
    assert (ItemSeparator(true, fmt) + others)[1..] == blank + others;
    SameItems(blank + others, others, d);
  }

  lemma {:induction false} SameItems(s: seq<byte>, t: seq<byte>, d: nat)
    requires Terminated(s) && Terminated(t) && SkipWs(s) == SkipWs(t)
    ensures ParseItems(s, d) == ParseItems(t, d)
  {
    hide ParseValue, SkipWs;
  }

  // ------------------------------------------------------------------
  // Objects

  /** The text of an object from behind its opening brace. */
  function ObjectInner(members: seq<Member>, fmt: bool, k: nat, post: seq<byte>): seq<byte> {
    NewLine(fmt) + (RenderMembers(members, fmt, k + 1) + (Indent(fmt, k) + ("}" + post)))
  }

  lemma {:induction false} ObjectRound(s: seq<byte>, d: nat, inner: seq<byte>)
    requires Terminated(s) && s[0] == '{' && Terminated(s[1..]) && SkipWs(s[1..]) == inner
    ensures d >= NESTING_LIMIT ==> ParseObject(s, d) == Fail
    ensures d < NESTING_LIMIT && inner[0] == '}' ==> ParseObject(s, d) == Done(Object([]), inner[1..])
    ensures d < NESTING_LIMIT && inner[0] != '}' ==>
      ParseObject(s, d) == (var r := ParseMembers(inner, d + 1);
        if r.FailMembers? then Fail else Done(Object(r.members), r.rest))
  {
    hide ParseMembers, SkipWs;
  }

  lemma {:induction false} ParseRenderedObject(members: seq<Member>, fmt: bool, k: nat, d: nat, post: seq<byte>)
    requires PrintableMembers(members) && Follows(post) && d <= NESTING_LIMIT
    ensures Terminated(Render(Object(members), fmt, k) + post)
    ensures ParseObject(Render(Object(members), fmt, k) + post, d) == Expected(Object(members), d, post)
    decreases members, 3
  {
    hide ParseMembers, ParseObject, NumberChar, SkipWs, PrintableMembers, RenderMembers, Render, ObjectInner,
      MembersText, Terminated, Indent;
    var end := Indent(fmt, k) + ("}" + post);
    var s := Render(Object(members), fmt, k) + post;
    FollowsEnds(post);
    TerminatedAfter(Render(Object(members), fmt, k), post);
    ObjectText(members, fmt, k, post);
    CloseObject(fmt, k, post);
    if members == [] {
      EmptyObject(fmt, k, post);
      ObjectRound(s, d, "}" + post);
    } else {
      FirstKey(members, fmt, k, post);
      ObjectRound(s, d, MembersText(members, fmt, k + 1, end));
      if d < NESTING_LIMIT {
        ParseRenderedMembers(members, fmt, k + 1, d + 1, end, post);
      }
    }
  }

  lemma {:induction false} ObjectText(members: seq<Member>, fmt: bool, k: nat, post: seq<byte>)
    requires Terminated(post)
    ensures
      var s := Render(Object(members), fmt, k) + post;
      s[0] == '{' && s[1..] == ObjectInner(members, fmt, k, post) && Terminated(s[1..])
  {
    hide RenderMembers, Indent, NewLine;
    var m := RenderMembers(members, fmt, k + 1);
    Assoc("{", NewLine(fmt) + (m + (Indent(fmt, k) + "}")), post);
    Assoc(NewLine(fmt), m + (Indent(fmt, k) + "}"), post);
    Assoc(m, Indent(fmt, k) + "}", post);
    Assoc(Indent(fmt, k), "}", post);
    SplitAt("{", ObjectInner(members, fmt, k, post));
    TerminatedAfter("}", post);
    TerminatedAfter(Indent(fmt, k), "}" + post);
    TerminatedAfter(m, Indent(fmt, k) + ("}" + post));
    TerminatedAfter(NewLine(fmt), m + (Indent(fmt, k) + ("}" + post)));
  }

  // Blanks and the brace close an object.
  lemma {:induction false} CloseObject(fmt: bool, k: nat, post: seq<byte>)
    requires Terminated(post)
    ensures var end := Indent(fmt, k) + ("}" + post);
      Follows(end) && SkipWs(end) == "}" + post && ("}" + post)[0] == '}' && ("}" + post)[1..] == post
  {
    TerminatedAfter("}", post);
    TerminatedAfter(Indent(fmt, k), "}" + post);
    SkipBlanks(Indent(fmt, k), "}" + post);
    SkipNothing("}", post);
    SplitAt("}", post);
  }

  lemma NoMembers(members: seq<Member>, fmt: bool, k: nat)
    requires members == []
    ensures RenderMembers(members, fmt, k) == []
  {}

  lemma {:induction false} EmptyObject(fmt: bool, k: nat, post: seq<byte>)
    requires Terminated(post)
    ensures
      var inner := ObjectInner([], fmt, k, post);
      Terminated(inner) && SkipWs(inner) == "}" + post
  {
    hide RenderMembers, Indent, NewLine, SkipWs;
    var end := Indent(fmt, k) + ("}" + post);
    CloseObject(fmt, k, post);
    NoMembers([], fmt, k + 1);
    assert [] + end == end;
    SkipBlanks(NewLine(fmt), end);
  }

  // The blanks between the brace and the first key are skipped.
  lemma {:induction false} FirstKey(members: seq<Member>, fmt: bool, k: nat, post: seq<byte>)
    requires members != [] && Terminated(post)
    ensures
      var inner := ObjectInner(members, fmt, k, post);
      var text := MembersText(members, fmt, k + 1, Indent(fmt, k) + ("}" + post));
      && Terminated(inner) && Terminated(text) && SkipWs(inner) == text && text[0] == '\"'
  {
    hide MembersText, RenderMembers, Indent, NewLine;
    var end := Indent(fmt, k) + ("}" + post);
    var text := MembersText(members, fmt, k + 1, end);
    CloseObject(fmt, k, post);
    MembersTextIs(members, fmt, k + 1, end);
    SkipBlanks(Indent(fmt, k + 1), text);
    SkipBlanks(NewLine(fmt), Indent(fmt, k + 1) + text);
  }

  /** The text of some members from the first key on. */
  function MembersText(members: seq<Member>, fmt: bool, k: nat, end: seq<byte>): seq<byte>
    requires members != []
  {
    Quote(members[0].key) + AfterKey(members, fmt, k, end)
  }

  function AfterKey(members: seq<Member>, fmt: bool, k: nat, end: seq<byte>): seq<byte>
    requires members != []
  {
    (if fmt then ":\t" else ":") + (Render(members[0].value, fmt, k) + AfterValue(members, fmt, k, end))
  }

  function AfterValue(members: seq<Member>, fmt: bool, k: nat, end: seq<byte>): seq<byte>
    requires members != []
  {
    MemberSeparator(|members| > 1, fmt) + (RenderMembers(members[1..], fmt, k) + end)
  }

  lemma {:induction false} MembersTextIs(members: seq<Member>, fmt: bool, k: nat, end: seq<byte>)
    requires members != [] && Terminated(end)
    ensures var s := MembersText(members, fmt, k, end);
      && Terminated(s) && s[0] == '\"'
      && Terminated(AfterKey(members, fmt, k, end)) && Terminated(AfterValue(members, fmt, k, end))
      && RenderMembers(members, fmt, k) + end == Indent(fmt, k) + s
  {
    hide Render, Quote, MemberSeparator, Indent;
    var key := Quote(members[0].key);
    var colon := if fmt then ":\t" else ":";
    var v := Render(members[0].value, fmt, k);
    var sep := MemberSeparator(|members| > 1, fmt);
    var tail := RenderMembers(members[1..], fmt, k);
    TerminatedAfter(tail, end);
    TerminatedAfter(sep, tail + end);
    TerminatedAfter(v, sep + (tail + end));
    TerminatedAfter(colon, v + (sep + (tail + end)));
    TerminatedAfter(key, colon + (v + (sep + (tail + end))));
    QuoteStarts(members[0].key);
    Assoc(Indent(fmt, k), key + (colon + (v + (sep + tail))), end);
    Assoc(key, colon + (v + (sep + tail)), end);
    Assoc(colon, v + (sep + tail), end);
    Assoc(v, sep + tail, end);
    Assoc(sep, tail, end);
  }

  /** What the loop of parse_object makes of a member and the text behind it. */
  function ThenMembers(m: Member, after: seq<byte>, d: nat): ParsedMembers
    requires Terminated(after)
  {
    if after[0] == ',' then
      match ParseMembers(after[1..], d)
      case FailMembers => FailMembers
      case DoneMembers(members, end) => DoneMembers([m] + members, end)
    else if after[0] == '}' then DoneMembers([m], after[1..])
    else FailMembers
  }

  // One round of the loop of parse_object.
  lemma {:induction false} MembersRound(s: seq<byte>, d: nat, key: seq<byte>, colon: seq<byte>, value: seq<byte>)
    requires Terminated(s) && Terminated(colon) && Terminated(value)
    requires ParseString(SkipWs(s)) == Str(key, colon)
    requires colon[0] == ':' && SkipWs(colon) == colon && Terminated(colon[1..]) && SkipWs(colon[1..]) == value
    ensures ParseValue(value, d).Fail? ==> ParseMembers(s, d) == FailMembers
    ensures ParseValue(value, d).Done? ==>
      ParseMembers(s, d) == ThenMembers(Member(key, ParseValue(value, d).value), SkipWs(ParseValue(value, d).rest), d)
  {
    hide ParseValue, ParseString, SkipWs;
  }

  lemma {:induction false} ParseRenderedMembers(members: seq<Member>, fmt: bool, k: nat, d: nat,
                                               end: seq<byte>, post: seq<byte>)
    requires PrintableMembers(members) && members != [] && 0 < d <= NESTING_LIMIT
    requires Follows(end) && Terminated(post) && SkipWs(end) == "}" + post
    ensures Terminated(MembersText(members, fmt, k, end))
    ensures ParseMembers(MembersText(members, fmt, k, end), d)
         == if d + MembersNesting(members) <= NESTING_LIMIT then DoneMembers(members, post) else FailMembers
    decreases members, 2
  {
    hide ParseValue, ParseString, ParseMembers, Printable, Render, SkipWs, Nesting, Quote, Follows, Terminated,
      AfterKey, AfterValue, MembersText, RenderMembers;
    var m := members[0];
    var after := AfterValue(members, fmt, k, end);
    FollowsEnds(end);
    FirstMember(members, fmt, k, end);
    MembersRound(MembersText(members, fmt, k, end), d, m.key, AfterKey(members, fmt, k, end),
                 Render(m.value, fmt, k) + after);
    AfterValueFollows(members, fmt, k, end);
    ParseRendered(m.value, fmt, k, d, after);
    assert [m] + members[1..] == members;
    if |members| == 1 {
      assert MembersNesting(members[1..]) == 0;
      SplitAt("}", post);
    } else {
      ParseRenderedMembers(members[1..], fmt, k, d, end, post);
      NextMember(members, fmt, k, d, end);
    }
  }

  // The key and the colon of the first member.
  lemma {:induction false} FirstMember(members: seq<Member>, fmt: bool, k: nat, end: seq<byte>)
    requires PrintableMembers(members) && members != [] && Terminated(end)
    ensures
      var s := MembersText(members, fmt, k, end);
      var colon := AfterKey(members, fmt, k, end);
      var value := Render(members[0].value, fmt, k) + AfterValue(members, fmt, k, end);
      && Terminated(s) && Terminated(colon) && Terminated(value)
      && SkipWs(s) == s && ParseString(s) == Str(members[0].key, colon)
      && colon[0] == ':' && SkipWs(colon) == colon && Terminated(colon[1..]) && SkipWs(colon[1..]) == value
  {
    hide ParseString, Render, Quote, AfterValue, AfterKey, Printable;
    var colon := AfterKey(members, fmt, k, end);
    MembersTextIs(members, fmt, k, end);
    ParseQuoted(members[0].key, colon);
    QuoteStarts(members[0].key);
    SkipNothing(Quote(members[0].key), colon);
    RenderStarts(members[0].value, fmt, k);
    FirstColon(members, fmt, k, end);
  }

  lemma {:induction false} FirstColon(members: seq<Member>, fmt: bool, k: nat, end: seq<byte>)
    requires members != [] && Terminated(AfterValue(members, fmt, k, end))
    requires Render(members[0].value, fmt, k) != [] && ValueStart(Render(members[0].value, fmt, k)[0])
    ensures
      var colon := AfterKey(members, fmt, k, end);
      var value := Render(members[0].value, fmt, k) + AfterValue(members, fmt, k, end);
      && Terminated(colon) && Terminated(value)
      && colon[0] == ':' && SkipWs(colon) == colon && Terminated(colon[1..]) && SkipWs(colon[1..]) == value
  {
    hide Render, AfterValue;
    var colon := AfterKey(members, fmt, k, end);
    var v := Render(members[0].value, fmt, k);
    var after := AfterValue(members, fmt, k, end);
    SkipNothing(v, after);
    SkipNothing(if fmt then ":\t" else ":", v + after);
    SkipBlanks(if fmt then "\t" else "", v + after);
    assert colon[1..] == (if fmt then "\t" else "") + (v + after);
  }

  lemma {:induction false} AfterValueFollows(members: seq<Member>, fmt: bool, k: nat, end: seq<byte>)
    requires members != [] && Follows(end)
    ensures Follows(AfterValue(members, fmt, k, end))
    ensures |members| == 1 ==> SkipWs(AfterValue(members, fmt, k, end)) == SkipWs(end)
  {
    hide RenderMembers;
    var tail := RenderMembers(members[1..], fmt, k) + end;
    TerminatedAfter(RenderMembers(members[1..], fmt, k), end);
    TerminatedAfter(MemberSeparator(|members| > 1, fmt), tail);
    if |members| == 1 {
      NoMembers(members[1..], fmt, k);
      assert [] + end == end;
      assert MemberSeparator(false, fmt) == NewLine(fmt);
      SkipBlanks(NewLine(fmt), end);
    }
  }

  // After a comma come blanks and the next key.
  lemma {:induction false} NextMember(members: seq<Member>, fmt: bool, k: nat, d: nat, end: seq<byte>)
    requires |members| > 1 && Terminated(end)
    ensures
      var after := AfterValue(members, fmt, k, end);
      var text := MembersText(members[1..], fmt, k, end);
      && Terminated(after) && after[0] == ',' && SkipWs(after) == after && Terminated(after[1..]) && Terminated(text)
      && ParseMembers(after[1..], d) == ParseMembers(text, d)
  {
    hide ParseMembers, RenderMembers, MembersText, Indent;
    var text := MembersText(members[1..], fmt, k, end);
    var tail := Indent(fmt, k) + text;
    MembersTextIs(members[1..], fmt, k, end);
    SkipBlanks(Indent(fmt, k), text);
    SkipBlanks(NewLine(fmt), tail);
    Assoc(",", NewLine(fmt), tail);
    SplitAt(",", NewLine(fmt) + tail);
    SkipNothing(",", NewLine(fmt) + tail);
    SameMembers(NewLine(fmt) + tail, text, d);
  }

  lemma {:induction false} SameMembers(s: seq<byte>, t: seq<byte>, d: nat)
    requires Terminated(s) && Terminated(t) && SkipWs(s) == SkipWs(t)
    ensures ParseMembers(s, d) == ParseMembers(t, d)
  {
    hide ParseString, ParseValue, SkipWs;
  }

  // ------------------------------------------------------------------
  // Documents

  lemma {:induction false} StartsHead(s: seq<byte>, p: seq<byte>)
    requires p != []
    ensures StartsWith(s, p) ==> s[0] == p[0]
  {
    if StartsWith(s, p) {
      assert s[0] == s[..|p|][0];
    }
  }

  // Parsing a printed tree gives the tree back, for both print formats and
  // both parse options, if and only if it is nested no deeper than the limit.
  lemma {:induction false} DocumentRoundTrip(t: Json, fmt: bool, requireEnd: bool)
    requires Printable(t)
    ensures ParseDocument(Render(t, fmt, 0), requireEnd)
         == if Nesting(t) <= 1000 then Document(t) else NoDocument
  {
    hide ParseValue, Render, Printable, Nesting;
    var text := Render(t, fmt, 0);
    RenderStarts(t, fmt, 0);
    SkipNothing(text, [NUL]);
    StartsHead(text + [NUL], BOM);
    assert (text + [NUL])[0] == text[0];
    ParseRendered(t, fmt, 0, 0, [NUL]);
  }

  // Formatting does not change what a tree's text stands for.
  lemma {:induction false} FormatsAgree(t: Json, requireEnd: bool)
    requires Printable(t)
    ensures ParseDocument(Render(t, true, 0), requireEnd) == ParseDocument(Render(t, false, 0), requireEnd)
  {
    hide ParseDocument, Render;
    DocumentRoundTrip(t, true, requireEnd);
    DocumentRoundTrip(t, false, requireEnd);
  }
}
