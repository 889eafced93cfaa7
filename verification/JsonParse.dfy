// The parser of cJSON as functions on the rest of its input, which ends with the
// terminating NUL of the C string.

module JsonParse {
  import opened Bytes
  import opened JsonText

  const NESTING_LIMIT: nat := 1000

  predicate Terminated(s: seq<byte>) {
    s != [] && s[|s| - 1] == NUL
  }

  /** buffer_skip_whitespace: past chars up to 32, but never past the last one. */
  function SkipWs(s: seq<byte>): (r: seq<byte>)
    requires Terminated(s)
    ensures Terminated(r) && |r| <= |s|
    ensures |r| > 1 ==> r[0] as int > 32
    ensures s[0] as int > 32 ==> r == s
  {
    if |s| > 1 && s[0] as int <= 32 then SkipWs(s[1..]) else s
  }

  // ------------------------------------------------------------------
  // Strings

  /** The first pass of parse_string: the body up to the closing quote. */
  datatype Scanned = Unclosed | Closed(body: seq<byte>, rest: seq<byte>)

  function ScanString(s: seq<byte>): (r: Scanned)
    ensures r.Closed? ==> s == r.body + ("\"" + r.rest)
  {
    if s == [] then Unclosed
    else if s[0] == '\"' then Closed([], s[1..])
    else if s[0] == '\\' then
      if |s| < 2 then Unclosed
      else
        match ScanString(s[2..])
        case Unclosed => Unclosed
        case Closed(body, rest) => Closed(s[..2] + body, rest)
    else
      match ScanString(s[1..])
      case Unclosed => Unclosed
      case Closed(body, rest) => Closed(s[..1] + body, rest)
  }

  function HexValue(c: byte): int {
    if '0' <= c <= '9' then c as int - 48
    else if 'A' <= c <= 'F' then c as int - 55
    else if 'a' <= c <= 'f' then c as int - 87
    else -1
  }

  /** parse_hex4: zero for anything but four hex digits. */
  function Hex4(s: seq<byte>): (h: nat)
    requires |s| >= 4
    ensures h < 0x10000
  {
    if HexValue(s[0]) < 0 || HexValue(s[1]) < 0 || HexValue(s[2]) < 0 || HexValue(s[3]) < 0 then 0
    else 16 * (16 * (16 * HexValue(s[0]) + HexValue(s[1])) + HexValue(s[2])) + HexValue(s[3])
  }

  /** The UTF-8 form of a code point (section 3 of RFC 3629). */
  function Utf8(cp: nat): (s: seq<byte>)
    requires cp <= 0x10FFFF
    ensures 1 <= |s| <= 4
    ensures |s| == 1 <==> cp < 0x80
    ensures |s| == 4 <==> cp >= 0x10000
  {
    if cp < 0x80 then [cp as char]
    else if cp < 0x800 then [(0xC0 + cp / 0x40) as char, (0x80 + cp % 0x40) as char]
    else if cp < 0x10000 then
      [(0xE0 + cp / 0x1000) as char, (0x80 + cp / 0x40 % 0x40) as char, (0x80 + cp % 0x40) as char]
    else
      [(0xF0 + cp / 0x40000) as char, (0x80 + cp / 0x1000 % 0x40) as char,
       (0x80 + cp / 0x40 % 0x40) as char, (0x80 + cp % 0x40) as char]
  }

  /** A \u escape: its code point and how many chars it takes. */
  datatype Escaped = BadEscape | CodePoint(cp: nat, length: nat)

  /** utf16_literal_to_utf8 up to the encoding, at a body that starts with \u. */
  function Utf16Literal(body: seq<byte>): (r: Escaped)
    ensures r.CodePoint? ==> r.cp <= 0x10FFFF && 6 <= r.length <= |body|
  {
    if |body| < 6 then BadEscape
    else
      var first := Hex4(body[2..6]);
      if 0xDC00 <= first <= 0xDFFF then BadEscape
      else if 0xD800 <= first <= 0xDBFF then
        if |body| < 12 || body[6] != '\\' || body[7] != 'u' then BadEscape
        else
          var second := Hex4(body[8..12]);
          if second < 0xDC00 || second > 0xDFFF then BadEscape
          else CodePoint(0x10000 + (first - 0xD800) * 0x400 + (second - 0xDC00), 12)
      else CodePoint(first, 6)
  }

  datatype Text = BadText | Text(s: seq<byte>)

  function Prepend(s: seq<byte>, t: Text): Text {
    if t.BadText? then BadText else Text(s + t.s)
  }

  /** The char an escape with one letter stands for. */
  function SimpleEscape(c: byte): (e: seq<byte>)
    ensures |e| <= 1
  {
    if c == 'b' then [8 as char]
    else if c == 'f' then [12 as char]
    else if c == 'n' then "\n"
    else if c == 'r' then "\r"
    else if c == 't' then "\t"
    else if c == '\"' || c == '\\' || c == '/' then [c]
    else []
  }

  /** One round of the second pass: what it writes and how many chars it takes. */
  datatype Step = BadStep | Step(out: seq<byte>, length: nat)

  /** The round at the front of what is left of the body. A backslash that ends
      the body is followed by the closing quote. */
  function UnescapeStep(body: seq<byte>): (r: Step)
    requires body != []
    ensures r.Step? ==> 1 <= r.length <= |body|
  {
    if body[0] != '\\' then Step(body[..1], 1)
    else
      var c := if |body| > 1 then body[1] else '\"';
      if c == 'u' then
        match Utf16Literal(body)
        case BadEscape => BadStep
        case CodePoint(cp, length) => Step(Utf8(cp), length)
      else if SimpleEscape(c) == [] then BadStep
      else Step(SimpleEscape(c), Min(2, |body|))
  }

  /** The second pass of parse_string. */
  function Unescape(body: seq<byte>): Text {
    if body == [] then Text([])
    else
      match UnescapeStep(body)
      case BadStep => BadText
      case Step(out, length) => Prepend(out, Unescape(body[length..]))
  }

  function Min(a: nat, b: nat): nat { if a < b then a else b }

  /** What a C string shows of a buffer: the chars before its first NUL. */
  function CString(s: seq<byte>): (r: seq<byte>)
    ensures NulFree(r)
    ensures NulFree(s) ==> r == s
  {
    if s == [] || s[0] == NUL then [] else [s[0]] + CString(s[1..])
  }

  datatype ParsedString = BadString | Str(s: seq<byte>, rest: seq<byte>)

  /** parse_string. */
  function ParseString(s: seq<byte>): (r: ParsedString)
    requires Terminated(s)
    ensures r.Str? ==> Terminated(r.rest) && |r.rest| < |s|
  {
    if s[0] != '\"' then BadString
    else
      match ScanString(s[1..])
      case Unclosed => BadString
      case Closed(body, rest) =>
        assert s[1..] == body + ("\"" + rest);
        assert s[|s| - 1] == ("\"" + rest)[|rest|];
        match Unescape(body)
        case BadText => BadString
        case Text(t) => Str(CString(t), rest)
  }

  // ------------------------------------------------------------------
  // Values

  datatype Parsed = Fail | Done(value: Json, rest: seq<byte>)
  datatype ParsedItems = FailItems | DoneItems(items: seq<Json>, rest: seq<byte>)
  datatype ParsedMembers = FailMembers | DoneMembers(members: seq<Member>, rest: seq<byte>)

  /** The chars parse_number copies, at most 63. */
  function NumberRun(s: seq<byte>, limit: nat): (n: nat)
    ensures n <= |s| && n <= limit
    ensures forall i :: 0 <= i < n ==> NumberChar(s[i])
  {
    if limit > 0 && s != [] && NumberChar(s[0]) then 1 + NumberRun(s[1..], limit - 1) else 0
  }

  function ParseNumber(s: seq<byte>): (r: Parsed)
    requires Terminated(s)
    ensures r.Done? ==> Terminated(r.rest) && |r.rest| < |s|
  {
    var run := NumberRun(s, 63);
    var n := StrtodLength(s[..run]);
    if n == 0 then Fail
    else
      assert NumberChar(s[n - 1]);
      Done(Number(s[..n]), s[n..])
  }

  predicate StartsWith(s: seq<byte>, p: seq<byte>) { |p| <= |s| && s[..|p|] == p }

  function AfterLiteral(s: seq<byte>, p: seq<byte>, t: Json): (r: Parsed)
    requires Terminated(s) && StartsWith(s, p) && p != [] && p[|p| - 1] != NUL
    ensures r.Done? && Terminated(r.rest) && |r.rest| < |s|
  {
    assert s[|p| - 1] == p[|p| - 1];
    Done(t, s[|p|..])
  }

  /** parse_value at nesting depth d. */
  function ParseValue(s: seq<byte>, d: nat): (r: Parsed)
    requires Terminated(s)
    ensures r.Done? ==> Terminated(r.rest) && |r.rest| < |s|
    decreases |s|, 3
  {
    if StartsWith(s, "null") then AfterLiteral(s, "null", Null)
    else if StartsWith(s, "false") then AfterLiteral(s, "false", False)
    else if StartsWith(s, "true") then AfterLiteral(s, "true", True)
    else if s[0] == '\"' then
      match ParseString(s)
      case BadString => Fail
      case Str(t, rest) => Done(String(t), rest)
    else if s[0] == '-' || IsDigit(s[0]) then ParseNumber(s)
    else if s[0] == '[' then ParseArray(s, d)
    else if s[0] == '{' then ParseObject(s, d)
    else Fail
  }

  /** parse_array. */
  function ParseArray(s: seq<byte>, d: nat): (r: Parsed)
    requires Terminated(s)
    ensures r.Done? ==> Terminated(r.rest) && |r.rest| < |s|
    decreases |s|, 2
  {
    if d >= NESTING_LIMIT || s[0] != '[' then Fail
    else
      var inner := SkipWs(s[1..]);
      if inner[0] == ']' then Done(Array([]), inner[1..])
      else
        match ParseItems(inner, d + 1)
        case FailItems => Fail
        case DoneItems(items, rest) => Done(Array(items), rest)
  }

  /** The loop of parse_array and the closing bracket. */
  function ParseItems(s: seq<byte>, d: nat): (r: ParsedItems)
    requires Terminated(s)
    ensures r.DoneItems? ==> Terminated(r.rest) && |r.rest| < |s|
    decreases |s|, 4
  {
    match ParseValue(SkipWs(s), d)
    case Fail => FailItems
    case Done(v, rest) =>
      var after := SkipWs(rest);
      if after[0] == ',' then
        match ParseItems(after[1..], d)
        case FailItems => FailItems
        case DoneItems(items, end) => DoneItems([v] + items, end)
      else if after[0] == ']' then DoneItems([v], after[1..])
      else FailItems
  }

  /** parse_object. */
  function ParseObject(s: seq<byte>, d: nat): (r: Parsed)
    requires Terminated(s)
    ensures r.Done? ==> Terminated(r.rest) && |r.rest| < |s|
    decreases |s|, 2
  {
    if d >= NESTING_LIMIT || s[0] != '{' then Fail
    else
      var inner := SkipWs(s[1..]);
      if inner[0] == '}' then Done(Object([]), inner[1..])
      else
        match ParseMembers(inner, d + 1)
        case FailMembers => Fail
        case DoneMembers(members, rest) => Done(Object(members), rest)
  }

  /** The loop of parse_object and the closing brace. */
  function ParseMembers(s: seq<byte>, d: nat): (r: ParsedMembers)
    requires Terminated(s)
    ensures r.DoneMembers? ==> Terminated(r.rest) && |r.rest| < |s|
    decreases |s|, 4
  {
    match ParseString(SkipWs(s))
    case BadString => FailMembers
    case Str(key, rest0) =>
      var colon := SkipWs(rest0);
      if colon[0] != ':' then FailMembers
      else
        match ParseValue(SkipWs(colon[1..]), d)
        case Fail => FailMembers
        case Done(v, rest) =>
          var after := SkipWs(rest);
          if after[0] == ',' then
            match ParseMembers(after[1..], d)
            case FailMembers => FailMembers
            case DoneMembers(members, end) => DoneMembers([Member(key, v)] + members, end)
          else if after[0] == '}' then DoneMembers([Member(key, v)], after[1..])
          else FailMembers
  }

  // ------------------------------------------------------------------
  // Documents

  const BOM: seq<byte> := [0xEF as char, 0xBB as char, 0xBF as char]

  /** skip_utf8_bom: it wants at least one char behind the mark and the next one. */
  function SkipBom(s: seq<byte>): (r: seq<byte>)
    requires Terminated(s)
    ensures Terminated(r)
  {
    if |s| > 4 && StartsWith(s, BOM) then s[3..] else s
  }

  datatype Document = NoDocument | Document(root: Json)

  /** cJSON_ParseWithOpts on a C string. */
  function ParseDocument(text: seq<byte>, requireEnd: bool): Document {
    match ParseValue(SkipWs(SkipBom(text + [NUL])), 0)
    case Fail => NoDocument
    case Done(t, rest) => if requireEnd && SkipWs(rest)[0] != NUL then NoDocument else Document(t)
  }
}
