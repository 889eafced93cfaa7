// JSON trees and the text cJSON prints for them, formatted and unformatted.

module JsonText {
  import opened Bytes

  /** A cJSON item without links. A number is the text print_number renders for it. */
  datatype Json =
    | Null
    | False
    | True
    | Number(text: seq<byte>)
    | String(s: seq<byte>)
    | Array(items: seq<Json>)
    | Object(members: seq<Member>)

  datatype Member = Member(key: seq<byte>, value: Json)

  // ------------------------------------------------------------------
  // Numbers

  /** The chars parse_number copies. */
  predicate NumberChar(c: byte) {
    IsDigit(c) || c == '+' || c == '-' || c == 'e' || c == 'E' || c == '.'
  }

  function DigitRun(s: seq<byte>): (n: nat)
    ensures n <= |s|
  {
    if s != [] && IsDigit(s[0]) then 1 + DigitRun(s[1..]) else 0
  }

  /** How many chars strtod converts: a sign, digits around a point, and an
      exponent if it has digits. */
  function StrtodLength(s: seq<byte>): (n: nat)
    ensures n <= |s|
  {
    var sign := if s != [] && (s[0] == '-' || s[0] == '+') then 1 else 0;
    var whole := DigitRun(s[sign..]);
    var p := sign + whole;
    var fraction := if p < |s| && s[p] == '.' then DigitRun(s[p + 1..]) else 0;
    if whole + fraction == 0 then 0
    else
      var q := if p < |s| && s[p] == '.' then p + 1 + fraction else p;
      if q < |s| && (s[q] == 'e' || s[q] == 'E') then
        var r := if q + 1 < |s| && (s[q + 1] == '-' || s[q + 1] == '+') then q + 2 else q + 1;
        var exponent := DigitRun(s[r..]);
        if exponent > 0 then r + exponent else q
      else q
  }

  /** A rendered number: strtod converts all of it, and it fits print_number's buffer. */
  predicate NumberText(s: seq<byte>) {
    && 0 < |s| <= 25
    && (s[0] == '-' || IsDigit(s[0]))
    && (forall i :: 0 <= i < |s| ==> NumberChar(s[i]))
    && StrtodLength(s) == |s|
  }

  // ------------------------------------------------------------------
  // Strings

  predicate NulFree(s: seq<byte>) {
    forall i :: 0 <= i < |s| ==> s[i] != NUL
  }

  function HexDigit(d: nat): (c: byte)
    requires d < 16
  {
    if d < 10 then (48 + d) as char else (87 + d) as char
  }

  /** What print_string_ptr writes for one char. */
  function EscapeChar(c: byte): (e: seq<byte>)
    ensures e != []
  {
    if c == '\"' then "\\\""
    else if c == '\\' then "\\\\"
    else if c == 8 as char then "\\b"
    else if c == 12 as char then "\\f"
    else if c == '\n' then "\\n"
    else if c == '\r' then "\\r"
    else if c == '\t' then "\\t"
    else if c as int < 32 then "\\u00" + [HexDigit(c as int / 16), HexDigit(c as int % 16)]
    else [c]
  }

  function Escape(s: seq<byte>): seq<byte> {
    if s == [] then [] else EscapeChar(s[0]) + Escape(s[1..])
  }

  function Quote(s: seq<byte>): seq<byte> {
    "\"" + (Escape(s) + "\"")
  }

  // ------------------------------------------------------------------
  // Values

  /** Chars the parser skips between tokens. */
  predicate Blank(s: seq<byte>) {
    forall i :: 0 <= i < |s| ==> s[i] as int <= 32
  }

  /** One tab per nesting level when formatting. */
  function Indent(fmt: bool, n: nat): (s: seq<byte>)
    ensures Blank(s)
  {
    if fmt then seq(n, _ => '\t') else ""
  }

  function NewLine(fmt: bool): (s: seq<byte>)
    ensures Blank(s)
  {
    if fmt then "\n" else ""
  }

  /** print_value at nesting depth k. */
  function Render(t: Json, fmt: bool, k: nat): seq<byte>
    decreases t, 1
  {
    match t
    case Null => "null"
    case False => "false"
    case True => "true"
    case Number(text) => text
    case String(s) => Quote(s)
    case Array(items) => "[" + (RenderItems(items, fmt, k + 1) + "]")
    case Object(members) =>
      "{" + (NewLine(fmt) + (RenderMembers(members, fmt, k + 1) + (Indent(fmt, k) + "}")))
  }

  /** The loop of print_array. */
  function RenderItems(items: seq<Json>, fmt: bool, k: nat): seq<byte>
    decreases items, 0
  {
    if items == [] then []
    else Render(items[0], fmt, k) + (ItemSeparator(|items| > 1, fmt) + RenderItems(items[1..], fmt, k))
  }

  function ItemSeparator(more: bool, fmt: bool): seq<byte> {
    if !more then "" else if fmt then ", " else ","
  }

  /** The loop of print_object. */
  function RenderMembers(members: seq<Member>, fmt: bool, k: nat): seq<byte>
    decreases members, 0
  {
    if members == [] then []
    else
      Indent(fmt, k) + (Quote(members[0].key) + ((if fmt then ":\t" else ":")
      + (Render(members[0].value, fmt, k) + (MemberSeparator(|members| > 1, fmt) + RenderMembers(members[1..], fmt, k)))))
  }

  function MemberSeparator(more: bool, fmt: bool): seq<byte> {
    (if more then "," else "") + NewLine(fmt)
  }

  // ------------------------------------------------------------------
  // Trees that can be printed

  /** Number texts that strtod converts whole and strings a C string can hold. */
  predicate Printable(t: Json)
    decreases t, 1
  {
    match t
    case Number(text) => NumberText(text)
    case String(s) => NulFree(s)
    case Array(items) => PrintableItems(items)
    case Object(members) => PrintableMembers(members)
    case _ => true
  }

  predicate PrintableItems(items: seq<Json>)
    decreases items, 0
  {
    items == [] || (Printable(items[0]) && PrintableItems(items[1..]))
  }

  predicate PrintableMembers(members: seq<Member>)
    decreases members, 0
  {
    members == [] || (NulFree(members[0].key) && Printable(members[0].value) && PrintableMembers(members[1..]))
  }

  function Max(a: nat, b: nat): nat { if a > b then a else b }

  /** How deep arrays and objects are nested. */
  function Nesting(t: Json): nat
    decreases t, 1
  {
    match t
    case Array(items) => 1 + ItemsNesting(items)
    case Object(members) => 1 + MembersNesting(members)
    case _ => 0
  }

  function ItemsNesting(items: seq<Json>): nat
    decreases items, 0
  {
    if items == [] then 0 else Max(Nesting(items[0]), ItemsNesting(items[1..]))
  }

  function MembersNesting(members: seq<Member>): nat
    decreases members, 0
  {
    if members == [] then 0 else Max(Nesting(members[0].value), MembersNesting(members[1..]))
  }
}
