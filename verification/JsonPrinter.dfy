// The printer of cJSON as it runs: a buffer that grows, an offset that is often
// left behind the text and caught up by looking for the terminator.

module JsonPrinter {
  import opened Bytes
  import opened JsonText
  import RoundTrip = JsonRoundTrip

  const INT_MAX: nat := 0x7FFF_FFFF

  // ------------------------------------------------------------------
  // Printed text holds no NUL

  lemma NulFreeConcat(a: seq<byte>, b: seq<byte>)
    requires NulFree(a) && NulFree(b)
    ensures NulFree(a + b)
  {}

  lemma EscapedCharNulFree(c: byte)
    requires c != NUL
    ensures NulFree(EscapeChar(c))
  {}

  lemma {:induction false} EscapeNulFree(s: seq<byte>)
    requires NulFree(s)
    ensures NulFree(Escape(s)) && NulFree(Quote(s))
  {
    hide EscapeChar;
    if s != [] {
      EscapedCharNulFree(s[0]);
      EscapeNulFree(s[1..]);
      NulFreeConcat(EscapeChar(s[0]), Escape(s[1..]));
    }
  }

  lemma {:induction false} RenderNulFree(t: Json, fmt: bool, k: nat)
    requires Printable(t)
    ensures NulFree(Render(t, fmt, k))
    decreases t, 1
  {
    hide Quote, NumberChar, StrtodLength;
    match t
    case Number(text) => NumberNulFree(text);
    case String(s) => EscapeNulFree(s);
    case Array(items) =>
      ItemsNulFree(items, fmt, k + 1);
      NulFreeConcat(RenderItems(items, fmt, k + 1), "]");
    case Object(members) =>
      MembersNulFree(members, fmt, k + 1);
      NulFreeConcat(Indent(fmt, k), "}");
      NulFreeConcat(RenderMembers(members, fmt, k + 1), Indent(fmt, k) + "}");
      NulFreeConcat(NewLine(fmt), RenderMembers(members, fmt, k + 1) + (Indent(fmt, k) + "}"));
    case _ =>
  }

  lemma NumberNulFree(text: seq<byte>)
    requires NumberText(text)
    ensures NulFree(text)
  {}

  lemma {:induction false} ItemsNulFree(items: seq<Json>, fmt: bool, k: nat)
    requires PrintableItems(items)
    ensures NulFree(RenderItems(items, fmt, k))
    decreases items, 2
  {
    hide Render;
    if items != [] {
      RenderNulFree(items[0], fmt, k);
      ItemsNulFree(items[1..], fmt, k);
      NulFreeConcat(ItemSeparator(|items| > 1, fmt), RenderItems(items[1..], fmt, k));
    }
  }

  lemma {:induction false} MembersNulFree(members: seq<Member>, fmt: bool, k: nat)
    requires PrintableMembers(members)
    ensures NulFree(RenderMembers(members, fmt, k))
    decreases members, 2
  {
    hide Render, Quote;
    if members != [] {
      var m := members[0];
      var tail := RenderMembers(members[1..], fmt, k);
      RenderNulFree(m.value, fmt, k);
      EscapeNulFree(m.key);
      MembersNulFree(members[1..], fmt, k);
      NulFreeConcat(MemberSeparator(|members| > 1, fmt), tail);
      var rest := MemberSeparator(|members| > 1, fmt) + tail;
      NulFreeConcat(Render(m.value, fmt, k), rest);
      NulFreeConcat(if fmt then ":\t" else ":", Render(m.value, fmt, k) + rest);
      NulFreeConcat(Quote(m.key), (if fmt then ":\t" else ":") + (Render(m.value, fmt, k) + rest));
    }
  }

  // ------------------------------------------------------------------
  // The buffer

  class PrintBuffer {
    var buffer: array<byte>
    var offset: nat
    var depth: nat
    const noalloc: bool
    const format: bool

    constructor (buffer: array<byte>, noalloc: bool, format: bool)
      requires buffer.Length <= INT_MAX
      ensures Valid()
      ensures this.buffer == buffer && offset == 0 && depth == 0 && this.noalloc == noalloc && this.format == format
    {
      this.buffer, this.noalloc, this.format := buffer, noalloc, format;
      offset, depth := 0, 0;
    }

    ghost predicate Valid()
      reads `buffer, `offset
    {
      && buffer.Length <= INT_MAX
      && (offset < buffer.Length || (offset == 0 && buffer.Length == 0))
    }

    /** How long the buffer can get. */
    ghost function Limit(): nat
      reads `buffer
    {
      if noalloc then buffer.Length else INT_MAX
    }

    /** The text up to the offset. */
    ghost function Before(): seq<byte>
      requires offset <= buffer.Length
      reads `buffer, `offset, buffer
    {
      buffer[..offset]
    }

    /** The buffer holds before and text and a terminator, and the offset is somewhere in text. */
    ghost predicate Holds(before: seq<byte>, text: seq<byte>)
      reads `buffer, `offset, buffer
    {
      && |before| <= offset <= |before| + |text| < buffer.Length
      && buffer[..|before| + |text|] == before + text
      && buffer[|before| + |text|] == NUL
    }

    // A text held behind what is before it is held from there.
    lemma {:induction false} HoldsTail(before: seq<byte>, text: seq<byte>, done: seq<byte>, tail: seq<byte>)
      requires done == before + text && Holds(done, tail)
      ensures Holds(before, text + tail)
    {
      Assoc(before, text, tail);
    }

    /** ensure: room for this many chars more and one. */
    method Ensure(needed: nat) returns (ok: bool)
      requires Valid()
      modifies `buffer
      ensures Valid() && Limit() == old(Limit()) && (buffer == old(buffer) || (fresh(buffer) && !noalloc))
      ensures ok <==> offset + needed + 1 <= Limit()
      ensures ok ==> offset + needed < buffer.Length
      ensures Before() == old(Before())
    {
      if buffer.Length > 0 && offset >= buffer.Length {
        return false;
      }
      if needed > INT_MAX {
        return false;
      }
      var total := needed + offset + 1;
      if total <= buffer.Length {
        return true;
      }
      if noalloc {
        return false;
      }
      var newSize := INT_MAX;
      if total > INT_MAX / 2 {
        if total > INT_MAX {
          return false;
        }
      } else {
        newSize := total * 2;
      }
      var source, newBuffer := buffer, new byte[newSize];
      for i := 0 to source.Length
        invariant buffer == source
        invariant newBuffer[..i] == source[..i]
      {
        newBuffer[i] := source[i];
      }
      assert newBuffer[..source.Length][..offset] == source[..source.Length][..offset];
      buffer := newBuffer;
      return true;
    }

    /** update_offset: strlen finds the terminator. */
    method UpdateOffset(ghost before: seq<byte>, ghost text: seq<byte>)
      requires Holds(before, text) && NulFree(text)
      modifies `offset
      ensures offset == |before| + |text| && Holds(before, text)
    {
      ghost var end := |before| + |text|;
      assert forall i :: |before| <= i < end ==> buffer[i] == buffer[..end][i] == text[i - |before|];
      while buffer[offset] != NUL
        invariant |before| <= offset <= end
        decreases end - offset
      {
        offset := offset + 1;
      }
    }

    /** memcpy of some chars to a place in the buffer. */
    method Copy(at: nat, text: seq<byte>)
      requires at + |text| <= buffer.Length
      modifies buffer
      ensures buffer[..at + |text|] == old(buffer[..at]) + text
    {
      for i := 0 to |text|
        invariant buffer[..at + i] == old(buffer[..at]) + text[..i]
      {
        buffer[at + i] := text[i];
      }
      assert text[..|text|] == text;
    }

    /** strcpy to the offset. */
    method CopyString(text: seq<byte>)
      requires Valid() && offset + |text| < buffer.Length
      modifies buffer
      ensures Holds(old(Before()), text)
    {
      Copy(offset, text);
      buffer[offset + |text|] := NUL;
    }

    /** Copies chars to the offset and moves it behind them. */
    method Append(text: seq<byte>)
      requires Valid() && offset + |text| < buffer.Length
      modifies `offset, buffer
      ensures Valid() && Before() == old(Before()) + text && offset == old(offset) + |text|
    {
      Copy(offset, text);
      offset := offset + |text|;
    }

    // ----------------------------------------------------------------
    // Values

    /** print_number, from the text sprintf gave. */
    method PrintNumber(text: seq<byte>) returns (ok: bool)
      requires Valid()
      modifies `buffer, `offset, buffer
      ensures Limit() == old(Limit()) && (buffer == old(buffer) || (fresh(buffer) && !noalloc))
      ensures ok <==> old(offset) + |text| + 2 <= Limit()
      ensures ok ==> Valid() && Holds(old(Before()), text) && offset == old(offset) + |text|
    {
      ok := Ensure(|text| + 1);
      if ok {
        CopyString(text);
        offset := offset + |text|;
      }
    }

    /** The null, false and true of print_value. */
    method PrintLiteral(text: seq<byte>) returns (ok: bool)
      requires Valid()
      modifies `buffer, buffer
      ensures Limit() == old(Limit()) && (buffer == old(buffer) || (fresh(buffer) && !noalloc))
      ensures ok <==> old(offset) + |text| + 2 <= Limit()
      ensures ok ==> Valid() && Holds(old(Before()), text)
    {
      ok := Ensure(|text| + 1);
      if ok {
        CopyString(text);
      }
    }

    /** print_string_ptr. */
    method PrintStringPtr(input: seq<byte>) returns (ok: bool)
      requires Valid() && NulFree(input)
      modifies `buffer, buffer
      ensures Limit() == old(Limit()) && (buffer == old(buffer) || (fresh(buffer) && !noalloc))
      ensures ok <==> old(offset) + |Quote(input)| + 2 <= Limit()
      ensures ok ==> Valid() && Holds(old(Before()), Quote(input))
    {
      hide Escape;
      var escapeCharacters := CountEscapes(input);
      var outputLength := |input| + escapeCharacters;
      ok := Ensure(outputLength + 3);
      if !ok {
        return;
      }
      WriteQuoted(input, escapeCharacters);
    }

    /** Writes the quoted string and its terminator at the offset. */
    method WriteQuoted(input: seq<byte>, escapeCharacters: nat)
      requires Valid() && escapeCharacters + |input| == |Escape(input)|
      requires escapeCharacters == 0 ==> forall i :: 0 <= i < |input| ==> |EscapeChar(input[i])| == 1
      requires offset + |Escape(input)| + 2 < buffer.Length
      modifies buffer
      ensures Holds(old(Before()), Quote(input))
    {
      hide Escape, EscapeChar;
      ghost var before := Before();
      Append1(offset, '\"');
      if escapeCharacters == 0 {
        PlainEscape(input);
        Copy(offset + 1, input);
      } else {
        EscapeInto(input, offset + 1);
      }
      var end := offset + 1 + |input| + escapeCharacters;
      Append1(end, '\"');
      buffer[end + 1] := NUL;
      Assoc(before + "\"", Escape(input), "\"");
      Assoc(before, "\"", Escape(input) + "\"");
      assert buffer[..end + 1] == before + Quote(input);
    }

    /** Stores one char behind the text. */
    method Append1(at: nat, c: byte)
      requires at < buffer.Length
      modifies buffer
      ensures buffer[..at + 1] == old(buffer[..at]) + [c]
    {
      buffer[at] := c;
    }

    /** The first pass of print_string_ptr: how many chars escaping adds. */
    method CountEscapes(input: seq<byte>) returns (n: nat)
      ensures n + |input| == |Escape(input)|
      ensures n == 0 ==> forall i :: 0 <= i < |input| ==> |EscapeChar(input[i])| == 1
    {
      hide EscapeChar;
      n := 0;
      assert input[0..] == input;
      for i := 0 to |input|
        invariant n + i + |Escape(input[i..])| == |Escape(input)|
        invariant n == 0 ==> forall k :: 0 <= k < i ==> |EscapeChar(input[k])| == 1
      {
        var c := input[i];
        assert input[i..][1..] == input[i + 1..];
        if c == '\"' || c == '\\' || c == 8 as char || c == 12 as char || c == '\n' || c == '\r' || c == '\t' {
          n := n + 1;
        } else if c as int < 32 {
          n := n + 5;
        }
        EscapedLength(c);
      }
    }

    /** The second pass of print_string_ptr. */
    method EscapeInto(input: seq<byte>, at: nat)
      requires at + |Escape(input)| <= buffer.Length
      modifies buffer
      ensures buffer[..at + |Escape(input)|] == old(buffer[..at]) + Escape(input)
    {
      hide EscapeChar;
      var output := at;
      ghost var before := buffer[..at];
      assert input[0..] == input;
      for i := 0 to |input|
        invariant 0 <= output <= buffer.Length
        invariant output + |Escape(input[i..])| == at + |Escape(input)|
        invariant buffer[..output] + Escape(input[i..]) == before + Escape(input)
      {
        assert input[i..][1..] == input[i + 1..];
        ghost var text := buffer[..output];
        EscapeRound(input[i..]);
        output := EscapeOne(input[i], output);
        Assoc(text, EscapeChar(input[i]), Escape(input[i + 1..]));
      }
      assert input[|input|..] == [];
      assert buffer[..output] + [] == buffer[..output];
    }

    /** One round of the second pass. */
    method EscapeOne(c: byte, at: nat) returns (next: nat)
      requires at + |EscapeChar(c)| <= buffer.Length
      modifies buffer
      ensures next == at + |EscapeChar(c)| && buffer[..next] == old(buffer[..at]) + EscapeChar(c)
    {
      if c as int > 31 && c != '\"' && c != '\\' {
        buffer[at] := c;
        return at + 1;
      }
      buffer[at] := '\\';
      if c == '\\' || c == '\"' {
        buffer[at + 1] := c;
      } else if c == 8 as char {
        buffer[at + 1] := 'b';
      } else if c == 12 as char {
        buffer[at + 1] := 'f';
      } else if c == '\n' {
        buffer[at + 1] := 'n';
      } else if c == '\r' {
        buffer[at + 1] := 'r';
      } else if c == '\t' {
        buffer[at + 1] := 't';
      } else {
        Copy(at + 1, "u00" + [HexDigit(c as int / 16), HexDigit(c as int % 16)]);
        return at + 6;
      }
      return at + 2;
    }

    // ----------------------------------------------------------------
    // Trees

    /** print_value: it succeeds exactly when the text, a terminator and one char
        more fit, and then leaves the text there. */
    method PrintValue(t: Json) returns (ok: bool)
      requires Valid() && Printable(t)
      modifies `buffer, `offset, `depth, buffer
      ensures Limit() == old(Limit()) && (buffer == old(buffer) || (fresh(buffer) && !noalloc))
      ensures ok <==> old(offset) + |Render(t, format, old(depth))| + 2 <= Limit()
      ensures ok ==> Valid() && depth == old(depth) && Holds(old(Before()), Render(t, format, old(depth)))
      decreases t, 3
    {
      hide Quote, RenderItems, RenderMembers, NumberText, PrintableItems, PrintableMembers;
      match t
      case Null => ok := PrintLiteral("null");
      case False => ok := PrintLiteral("false");
      case True => ok := PrintLiteral("true");
      case Number(text) => ok := PrintNumber(text);
      case String(s) => ok := PrintStringPtr(s);
      case Array(items) => ok := PrintArray(items);
      case Object(members) => ok := PrintObject(members);
    }

    /** print_array. */
    method PrintArray(items: seq<Json>) returns (ok: bool)
      requires Valid() && PrintableItems(items)
      modifies `buffer, `offset, `depth, buffer
      ensures Limit() == old(Limit()) && (buffer == old(buffer) || (fresh(buffer) && !noalloc))
      ensures ok <==> old(offset) + |Render(Array(items), format, old(depth))| + 2 <= Limit()
      ensures ok ==> Valid() && depth == old(depth) && Holds(old(Before()), Render(Array(items), format, old(depth)))
      decreases items, 2
    {
      hide RenderItems, PrintableItems, Holds;
      ghost var before, d := Before(), depth + 1;
      assert Render(Array(items), format, depth) == "[" + (RenderItems(items, format, d) + "]");
      hide Render;
      ok := Ensure(1);
      if !ok {
        return;
      }
      Append("[");
      depth := depth + 1;
      ok := PrintItems(items, before + "[");
      if !ok {
        return;
      }
      Assoc(before, "[", RenderItems(items, format, d));
      Assoc("[", RenderItems(items, format, d), "]");
      ok := CloseArray(before, "[" + RenderItems(items, format, d));
    }

    /** The bracket that closes an array, and a terminator. */
    method CloseArray(ghost before: seq<byte>, ghost text: seq<byte>) returns (ok: bool)
      requires Valid() && depth > 0 && Before() == before + text
      modifies `buffer, `depth, buffer
      ensures Limit() == old(Limit()) && (buffer == old(buffer) || (fresh(buffer) && !noalloc))
      ensures ok <==> |before| + |text + "]"| + 2 <= Limit()
      ensures ok ==> Valid() && depth == old(depth) - 1 && Holds(before, text + "]")
    {
      hide Holds;
      ok := Ensure(2);
      if ok {
        CopyString("]");
        depth := depth - 1;
        HoldsTail(before, text, before + text, "]");
      }
    }

    /** The loop of print_array, which ends with the offset behind the items. */
    method PrintItems(items: seq<Json>, ghost before: seq<byte>) returns (ok: bool)
      requires Valid() && PrintableItems(items) && Before() == before
      modifies `buffer, `offset, `depth, buffer
      ensures Limit() == old(Limit()) && (buffer == old(buffer) || (fresh(buffer) && !noalloc))
      ensures !ok ==> old(offset) + |RenderItems(items, format, old(depth))| + 2 > Limit()
      ensures ok ==> Valid() && depth == old(depth) && Before() == before + RenderItems(items, format, depth)
      decreases items, 1
    {
      hide RenderItems, PrintableItems, Render, Holds;
      ghost var d := depth;
      ghost var all := RenderItems(items, format, d);
      var i := 0;
      assert items[0..] == items;
      while i < |items|
        invariant 0 <= i <= |items| && Valid() && depth == d
        invariant Limit() == old(Limit()) && (buffer == old(buffer) || (fresh(buffer) && !noalloc))
        invariant PrintableItems(items[i..])
        invariant Before() + RenderItems(items[i..], format, d) == before + all
      {
        ghost var left := items[i..];
        ItemsSplit(left, format, d);
        assert left[0] == items[i] && left[1..] == items[i + 1..];
        ok := PrintItem(items[i], i + 1 < |items|, before + all, RenderItems(left[1..], format, d));
        if !ok {
          return;
        }
        i := i + 1;
      }
      assert items[i..] == [];
      ItemsNone(items[i..], format, d);
      assert Before() + [] == Before();
      ok := true;
    }

    /** One round of that loop: the item and what separates it from the next. */
    method PrintItem(t: Json, next: bool, ghost all: seq<byte>, ghost tail: seq<byte>) returns (ok: bool)
      requires Valid() && Printable(t)
      requires Before() + (Render(t, format, depth) + (ItemSeparator(next, format) + tail)) == all
      requires next ==> tail != []
      modifies `buffer, `offset, `depth, buffer
      ensures Limit() == old(Limit()) && (buffer == old(buffer) || (fresh(buffer) && !noalloc))
      ensures !ok ==> |all| + 2 > Limit()
      ensures ok ==> Valid() && depth == old(depth) && Before() + tail == all
      decreases t, 4
    {
      hide Render, Printable;
      ghost var text, before := Render(t, format, depth), Before();
      RenderNulFree(t, format, depth);
      ok := PrintValue(t);
      if !ok {
        return;
      }
      UpdateOffset(before, text);
      Assoc(before, text, ItemSeparator(next, format) + tail);
      if next {
        var length := if format then 2 else 1;
        ok := Ensure(length + 1);
        if !ok {
          return;
        }
        Append(if format then ", " else ",");
        Assoc(before + text, ItemSeparator(next, format), tail);
        buffer[offset] := NUL;
      } else {
        assert ItemSeparator(next, format) + tail == tail;
      }
    }

    /** print_object. */
    method PrintObject(members: seq<Member>) returns (ok: bool)
      requires Valid() && PrintableMembers(members)
      modifies `buffer, `offset, `depth, buffer
      ensures Limit() == old(Limit()) && (buffer == old(buffer) || (fresh(buffer) && !noalloc))
      ensures ok <==> old(offset) + |Render(Object(members), format, old(depth))| + 2 <= Limit()
      ensures ok ==> Valid() && depth == old(depth) && Holds(old(Before()), Render(Object(members), format, old(depth)))
      decreases members, 2
    {
      hide RenderMembers, PrintableMembers, Holds;
      ghost var before, d, m := Before(), depth, RenderMembers(members, format, depth + 1);
      assert Render(Object(members), format, d) == "{" + (NewLine(format) + (m + (Indent(format, d) + "}")));
      hide Render;
      var length := if format then 2 else 1;
      ok := Ensure(length + 1);
      if !ok {
        return;
      }
      Append(if format then "{\n" else "{");
      assert Before() == before + ("{" + NewLine(format));
      depth := depth + 1;
      ok := PrintMembers(members, before + ("{" + NewLine(format)));
      if !ok {
        return;
      }
      Assoc(before, "{" + NewLine(format), m);
      Assoc("{" + NewLine(format), m, Indent(format, d) + "}");
      Assoc("{", NewLine(format), m + (Indent(format, d) + "}"));
      ok := CloseObject(before, "{" + NewLine(format) + m);
    }

    /** The indentation and the brace that close an object, and a terminator. */
    method CloseObject(ghost before: seq<byte>, ghost text: seq<byte>) returns (ok: bool)
      requires Valid() && depth > 0 && Before() == before + text
      modifies `buffer, `depth, buffer
      ensures Limit() == old(Limit()) && (buffer == old(buffer) || (fresh(buffer) && !noalloc))
      ensures ok <==> |before| + |text + (Indent(format, old(depth) - 1) + "}")| + 2 <= Limit()
      ensures ok ==> Valid() && depth == old(depth) - 1 && Holds(before, text + (Indent(format, depth) + "}"))
    {
      hide Holds, Indent;
      IndentLength(format, depth - 1);
      ok := Ensure(if format then depth + 1 else 2);
      if ok {
        Close(depth - 1);
        depth := depth - 1;
        HoldsTail(before, text, before + text, Indent(format, depth) + "}");
      }
    }

    /** Tabs from a place in the buffer on. */
    method Tabs(at: nat, n: nat)
      requires at + n <= buffer.Length
      modifies buffer
      ensures buffer[..at + n] == old(buffer[..at]) + Indent(true, n)
    {
      for i := 0 to n
        invariant buffer[..at + i] == old(buffer[..at]) + Indent(true, i)
      {
        assert Indent(true, i + 1) == Indent(true, i) + "\t";
        buffer[at + i] := '\t';
      }
    }

    /** The tabs and the brace that close an object, and a terminator. */
    method Close(n: nat)
      requires Valid() && offset + |Indent(format, n)| + 1 < buffer.Length
      modifies buffer
      ensures Holds(old(Before()), Indent(format, n) + "}")
    {
      hide Indent;
      ghost var before := Before();
      var at := offset;
      IndentLength(format, n);
      if format {
        Tabs(offset, n);
        at := offset + n;
      } else {
        NoIndent(n);
        assert before + [] == before;
      }
      Append1(at, '}');
      buffer[at + 1] := NUL;
      Assoc(before, Indent(format, n), "}");
      assert buffer[..at + 1] == before + (Indent(format, n) + "}");
    }

    /** The loop of print_object, which ends with the offset behind the members. */
    method PrintMembers(members: seq<Member>, ghost before: seq<byte>) returns (ok: bool)
      requires Valid() && PrintableMembers(members) && Before() == before
      modifies `buffer, `offset, `depth, buffer
      ensures Limit() == old(Limit()) && (buffer == old(buffer) || (fresh(buffer) && !noalloc))
      ensures !ok ==> old(offset) + |RenderMembers(members, format, old(depth))| + 2 > Limit()
      ensures ok ==> Valid() && depth == old(depth) && Before() == before + RenderMembers(members, format, depth)
      decreases members, 1
    {
      hide RenderMembers, PrintableMembers, MemberText, Holds;
      ghost var d := depth;
      ghost var all := RenderMembers(members, format, d);
      var i := 0;
      assert members[0..] == members;
      while i < |members|
        invariant 0 <= i <= |members| && Valid() && depth == d
        invariant Limit() == old(Limit()) && (buffer == old(buffer) || (fresh(buffer) && !noalloc))
        invariant PrintableMembers(members[i..])
        invariant Before() + RenderMembers(members[i..], format, d) == before + all
      {
        ghost var left := members[i..];
        MembersSplit(left, format, d);
        assert left[0] == members[i] && left[1..] == members[i + 1..];
        ok := PrintMember(members[i], i + 1 < |members|, before + all, RenderMembers(left[1..], format, d));
        if !ok {
          return;
        }
        i := i + 1;
      }
      assert members[i..] == [];
      MembersNone(members[i..], format, d);
      assert Before() + [] == Before();
      ok := true;
    }

    /** One round of that loop. */
    method PrintMember(m: Member, next: bool, ghost all: seq<byte>, ghost tail: seq<byte>) returns (ok: bool)
      requires Valid() && NulFree(m.key) && Printable(m.value)
      requires Before() + MemberText(m, next, format, depth, tail) == all
      modifies `buffer, `offset, `depth, buffer
      ensures Limit() == old(Limit()) && (buffer == old(buffer) || (fresh(buffer) && !noalloc))
      ensures !ok ==> |all| + 2 > Limit()
      ensures ok ==> Valid() && depth == old(depth) && Before() + tail == all
      decreases m, 1
    {
      hide Render, Printable, Quote, Holds, NulFree;
      ghost var d, before := depth, Before();
      ghost var value := Render(m.value, format, d) + (MemberSeparator(next, format) + tail);
      ok := PrintKey(m.key, all, value);
      if !ok {
        return;
      }
      ok := PrintMemberValue(m.value, next, all, tail);
    }

    /** The indentation, the key and the colon. */
    method PrintKey(key: seq<byte>, ghost all: seq<byte>, ghost value: seq<byte>) returns (ok: bool)
      requires Valid() && NulFree(key)
      requires Before() + (Indent(format, depth) + (Quote(key) + ((if format then ":\t" else ":") + value))) == all
      modifies `buffer, `offset, buffer
      ensures Limit() == old(Limit()) && (buffer == old(buffer) || (fresh(buffer) && !noalloc))
      ensures !ok ==> |all| + 2 > Limit()
      ensures ok ==> Valid() && Before() + value == all
    {
      hide Quote, Indent, NulFree, Holds;
      ghost var colon := if format then ":\t" else ":";
      ghost var start, rest := Before(), Quote(key) + (colon + value);
      QuoteLength(key);
      ok := PrintIndent();
      if !ok {
        return;
      }
      Assoc(start, Indent(format, depth), rest);
      ok := PrintKeyString(key, all, colon + value);
      if !ok {
        return;
      }
      ghost var before := Before();
      ok := Ensure(if format then 2 else 1);
      if !ok {
        return;
      }
      Append(if format then ":\t" else ":");
      Assoc(before, colon, value);
    }

    method PrintIndent() returns (ok: bool)
      requires Valid()
      modifies `buffer, `offset, buffer
      ensures Limit() == old(Limit()) && (buffer == old(buffer) || (fresh(buffer) && !noalloc))
      ensures !ok ==> old(offset) + |Indent(format, depth)| + 1 > Limit()
      ensures ok ==> Valid() && Before() == old(Before()) + Indent(format, depth)
    {
      hide Indent;
      IndentLength(format, depth);
      ok := true;
      if format {
        ok := Ensure(depth);
        if !ok {
          return;
        }
        Tabs(offset, depth);
        offset := offset + depth;
      } else {
        NoIndent(depth);
        assert Before() + [] == Before();
      }
    }

    method PrintKeyString(key: seq<byte>, ghost all: seq<byte>, ghost tail: seq<byte>) returns (ok: bool)
      requires Valid() && NulFree(key) && Before() + (Quote(key) + tail) == all
      requires tail != []
      modifies `buffer, `offset, buffer
      ensures Limit() == old(Limit()) && (buffer == old(buffer) || (fresh(buffer) && !noalloc))
      ensures !ok ==> |all| + 2 > Limit()
      ensures ok ==> Valid() && Before() + tail == all
    {
      hide Quote;
      ghost var before := Before();
      EscapeNulFree(key);
      ok := PrintStringPtr(key);
      if ok {
        UpdateOffset(before, Quote(key));
        Assoc(before, Quote(key), tail);
      }
    }

    /** The value and what separates it from the next key. */
    method PrintMemberValue(t: Json, next: bool, ghost all: seq<byte>, ghost tail: seq<byte>) returns (ok: bool)
      requires Valid() && Printable(t)
      requires Before() + (Render(t, format, depth) + (MemberSeparator(next, format) + tail)) == all
      modifies `buffer, `offset, `depth, buffer
      ensures Limit() == old(Limit()) && (buffer == old(buffer) || (fresh(buffer) && !noalloc))
      ensures !ok ==> |all| + 2 > Limit()
      ensures ok ==> Valid() && depth == old(depth) && Before() + tail == all
      decreases t, 4
    {
      hide Render, Printable;
      ghost var text, before := Render(t, format, depth), Before();
      RenderNulFree(t, format, depth);
      ok := PrintValue(t);
      if !ok {
        return;
      }
      UpdateOffset(before, text);
      Assoc(before, text, MemberSeparator(next, format) + tail);
      var length := (if format then 1 else 0) + (if next then 1 else 0);
      ok := Ensure(length + 1);
      if !ok {
        return;
      }
      Append((if next then "," else "") + (if format then "\n" else ""));
      Assoc(before + text, MemberSeparator(next, format), tail);
      buffer[offset] := NUL;
    }
  }

  function MemberText(m: Member, next: bool, fmt: bool, k: nat, tail: seq<byte>): seq<byte> {
    Indent(fmt, k) + (Quote(m.key) + ((if fmt then ":\t" else ":")
    + (Render(m.value, fmt, k) + (MemberSeparator(next, fmt) + tail))))
  }

  lemma {:induction false} MembersSplit(members: seq<Member>, fmt: bool, k: nat)
    requires members != [] && PrintableMembers(members)
    ensures NulFree(members[0].key) && Printable(members[0].value) && PrintableMembers(members[1..])
    ensures RenderMembers(members, fmt, k)
         == MemberText(members[0], |members| > 1, fmt, k, RenderMembers(members[1..], fmt, k))
  {
    hide Render, Printable, Quote, Indent, NulFree;
  }

  lemma MembersNone(members: seq<Member>, fmt: bool, k: nat)
    requires members == []
    ensures RenderMembers(members, fmt, k) == []
  {}

  lemma QuoteLength(s: seq<byte>)
    ensures |Quote(s)| >= 2
  {}

  lemma NoIndent(n: nat)
    ensures Indent(false, n) == []
  {}

  lemma IndentLength(fmt: bool, n: nat)
    ensures |Indent(fmt, n)| == if fmt then n else 0
  {}

  lemma {:induction false} ItemsSplit(items: seq<Json>, fmt: bool, k: nat)
    requires items != [] && PrintableItems(items)
    ensures Printable(items[0]) && PrintableItems(items[1..])
    ensures RenderItems(items, fmt, k)
         == Render(items[0], fmt, k) + (ItemSeparator(|items| > 1, fmt) + RenderItems(items[1..], fmt, k))
    ensures |items| > 1 ==> RenderItems(items[1..], fmt, k) != []
  {
    hide Render, Printable;
    if |items| > 1 {
      RoundTrip.ItemsStart(items[1..], fmt, k);
    }
  }

  lemma ItemsNone(items: seq<Json>, fmt: bool, k: nat)
    requires items == []
    ensures RenderItems(items, fmt, k) == []
  {}

  lemma EscapeRound(s: seq<byte>)
    requires s != []
    ensures Escape(s) == EscapeChar(s[0]) + Escape(s[1..])
  {}

  lemma EscapedLength(c: byte)
    ensures |EscapeChar(c)|
      == if c == '\"' || c == '\\' || c == 8 as char || c == 12 as char || c == '\n' || c == '\r' || c == '\t' then 2
         else if c as int < 32 then 6 else 1
  {}

  lemma {:induction false} PlainEscape(s: seq<byte>)
    requires forall i :: 0 <= i < |s| ==> |EscapeChar(s[i])| == 1
    ensures Escape(s) == s
  {
    if s != [] {
      PlainEscape(s[1..]);
      assert [s[0]] + s[1..] == s;
    }
  }

  // ------------------------------------------------------------------
  // Printing a document

  /** cJSON_Print and cJSON_PrintUnformatted: the text and its terminator, unless
      they and one char more do not fit in INT_MAX. */
  method Print(t: Json, format: bool) returns (ok: bool, printed: array<byte>)
    requires Printable(t)
    ensures ok <==> |Render(t, format, 0)| + 2 <= 2147483647
    ensures ok ==> printed[..] == Render(t, format, 0) + [NUL]
  {
    hide Render, Printable;
    ghost var text := Render(t, format, 0);
    var buffer := new byte[256];
    var p := new PrintBuffer(buffer, false, format);
    printed := new byte[0];
    ok := p.PrintValue(t);
    if ok {
      RenderNulFree(t, format, 0);
      assert p.buffer[..|text|] == text by { assert [] + text == text; }
      p.UpdateOffset([], text);
      var source, n := p.buffer, p.offset + 1;
      assert source[..n] == text + [NUL];
      printed := new byte[n];
      for i := 0 to n
        invariant printed[..i] == source[..i]
        invariant source[..n] == text + [NUL]
      {
        printed[i] := source[i];
      }
      assert printed[..] == printed[..n];
    }
  }

  /** cJSON_PrintPreallocated: it never leaves the caller's buffer, and one char
      more than the text and its terminator is enough. */
  method PrintPreallocated(t: Json, buf: array<byte>, fmt: bool) returns (ok: bool)
    requires Printable(t) && buf.Length <= INT_MAX
    modifies buf
    ensures ok <==> |Render(t, fmt, 0)| + 2 <= buf.Length
    ensures ok ==> buf[..|Render(t, fmt, 0)| + 1] == Render(t, fmt, 0) + [NUL]
  {
    hide Render, Printable;
    ghost var text := Render(t, fmt, 0);
    var p := new PrintBuffer(buf, true, fmt);
    ok := p.PrintValue(t);
    if ok {
      assert p.buffer == buf;
      assert buf[..|text|] == text by { assert [] + text == text; }
    }
  }
}
