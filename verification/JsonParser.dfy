// The parser of cJSON as it runs: a buffer with an offset and a depth, updated
// step by step, against the functions of JsonParse.

module JsonParser {
  import opened Bytes
  import opened JsonText
  import opened JsonParse
  import opened JsonUnicode
  import RoundTrip = JsonRoundTrip

  // ------------------------------------------------------------------
  // Accumulated results

  /** What the scan of a body gives once b is scanned and r is what follows. */
  function Behind(b: seq<byte>, r: Scanned): Scanned {
    if r.Unclosed? then Unclosed else Closed(b + r.body, r.rest)
  }

  function BehindItems(items: seq<Json>, r: ParsedItems): ParsedItems {
    if r.FailItems? then FailItems else DoneItems(items + r.items, r.rest)
  }

  function BehindMembers(members: seq<Member>, r: ParsedMembers): ParsedMembers {
    if r.FailMembers? then FailMembers else DoneMembers(members + r.members, r.rest)
  }

  /** What the loop gives when no comma follows. */
  function EndedItems(items: seq<Json>, rest: seq<byte>): ParsedItems
    requires rest != []
  {
    if rest[0] == ']' then DoneItems(items, rest[1..]) else FailItems
  }

  lemma EndedItemsIs(items: seq<Json>, rest: seq<byte>)
    requires rest != []
    ensures EndedItems(items, rest) == if rest[0] == ']' then DoneItems(items, rest[1..]) else FailItems
  {}

  lemma BehindItemsFail(items: seq<Json>)
    ensures BehindItems(items, FailItems) == FailItems
  {}

  lemma BehindItemsNone(r: ParsedItems)
    ensures BehindItems([], r) == r
  {}

  /** What the loop gives when no comma follows. */
  function EndedMembers(members: seq<Member>, rest: seq<byte>): ParsedMembers
    requires rest != []
  {
    if rest[0] == '}' then DoneMembers(members, rest[1..]) else FailMembers
  }

  lemma EndedMembersIs(members: seq<Member>, rest: seq<byte>)
    requires rest != []
    ensures EndedMembers(members, rest) == if rest[0] == '}' then DoneMembers(members, rest[1..]) else FailMembers
  {}

  lemma BehindMembersFail(members: seq<Member>)
    ensures BehindMembers(members, FailMembers) == FailMembers
  {}

  lemma BehindMembersNone(r: ParsedMembers)
    ensures BehindMembers([], r) == r
  {}

  lemma {:induction false} BehindMore(a: seq<byte>, b: seq<byte>, r: Scanned)
    ensures Behind(a, Behind(b, r)) == Behind(a + b, r)
  {
    if r.Closed? {
      Assoc(a, b, r.body);
    }
  }

  lemma {:induction false} PrependMore(a: seq<byte>, b: seq<byte>, t: Text)
    ensures Prepend(a, Prepend(b, t)) == Prepend(a + b, t)
  {
    if t.Text? {
      Assoc(a, b, t.s);
    }
  }

  // One round of the first pass over a string: a char, or a backslash and the next one.
  lemma ScanRound(s: seq<byte>)
    requires s != [] && s[0] != '\"'
    ensures s[0] != '\\' ==> ScanString(s) == Behind(s[..1], ScanString(s[1..]))
    ensures s[0] == '\\' && |s| < 2 ==> ScanString(s) == Unclosed
    ensures s[0] == '\\' && |s| >= 2 ==> ScanString(s) == Behind(s[..2], ScanString(s[2..]))
  {}

  lemma {:induction false} SkipsOne(a: seq<byte>, c: byte)
    requires !EndsInside(a, false) && c != '\\'
    ensures Skips(a + [c], false) == Skips(a, false) && !EndsInside(a + [c], false)
  {
    SkipsSplit(a, [c], false);
    SkipsUnfold([c], false);
  }

  lemma {:induction false} SkipsPair(a: seq<byte>, c: byte)
    requires !EndsInside(a, false)
    ensures Skips(a + ['\\', c], false) == Skips(a, false) + 1 && !EndsInside(a + ['\\', c], false)
  {
    SkipsSplit(a, ['\\', c], false);
    SkipsUnfold(['\\', c], false);
    SkipsUnfold([c], true);
    assert ['\\', c][1..] == [c];
  }

  /** The first pass has scanned n chars of s and counted these backslashes. */
  predicate ScannedTo(s: seq<byte>, n: nat, skipped: nat) {
    && n <= |s| && !EndsInside(s[..n], false) && skipped == Skips(s[..n], false)
    && ScanString(s) == Behind(s[..n], ScanString(s[n..]))
  }

  lemma {:induction false} ScannedNothing(s: seq<byte>)
    ensures ScannedTo(s, 0, 0)
  {
    hide ScanString;
    assert s[..0] == [] && s[0..] == s;
  }

  lemma {:induction false} ScannedPlain(s: seq<byte>, n: nat, skipped: nat)
    requires ScannedTo(s, n, skipped) && n < |s| && s[n] != '\"' && s[n] != '\\'
    ensures ScannedTo(s, n + 1, skipped)
  {
    hide ScanString, Skips, EndsInside;
    var t := s[n..];
    ScanRound(t);
    assert t[..1] == [s[n]] && t[1..] == s[n + 1..] && s[..n + 1] == s[..n] + [s[n]];
    SkipsOne(s[..n], s[n]);
    BehindMore(s[..n], t[..1], ScanString(t[1..]));
  }

  lemma {:induction false} ScannedPair(s: seq<byte>, n: nat, skipped: nat)
    requires ScannedTo(s, n, skipped) && n + 2 <= |s| && s[n] == '\\'
    ensures ScannedTo(s, n + 2, skipped + 1)
  {
    hide ScanString, Skips, EndsInside;
    var t := s[n..];
    ScanRound(t);
    assert t[..2] == ['\\', s[n + 1]] && t[2..] == s[n + 2..] && s[..n + 2] == s[..n] + ['\\', s[n + 1]];
    SkipsPair(s[..n], s[n + 1]);
    BehindMore(s[..n], t[..2], ScanString(t[2..]));
  }

  lemma {:induction false} ScannedRound(s: seq<byte>, n: nat, skipped: nat)
    requires ScannedTo(s, n, skipped) && n < |s| && s[n] != '\"'
    ensures s[n] != '\\' ==> ScannedTo(s, n + 1, skipped)
    ensures s[n] == '\\' && n + 2 <= |s| ==> ScannedTo(s, n + 2, skipped + 1)
    ensures s[n] == '\\' && n + 1 == |s| ==> ScanString(s) == Unclosed
  {
    if s[n] != '\\' {
      ScannedPlain(s, n, skipped);
    } else if n + 2 <= |s| {
      ScannedPair(s, n, skipped);
    } else {
      hide ScanString, Skips, EndsInside;
      ScanRound(s[n..]);
    }
  }

  lemma {:induction false} ScannedAll(s: seq<byte>, n: nat, skipped: nat)
    requires ScannedTo(s, n, skipped)
    ensures n == |s| ==> ScanString(s) == Unclosed
    ensures n < |s| && s[n] == '\"' ==>
      (ScanString(s) == Closed(s[..n], s[n + 1..]) && skipped == Skips(s[..n], false) && !EndsInside(s[..n], false))
  {
    hide ScanString, Skips, EndsInside;
    ScanEnd(s[n..]);
    if n < |s| {
      assert s[n..][1..] == s[n + 1..];
      assert s[..n] + [] == s[..n];
    }
  }

  lemma {:induction false} ScannedEnd(content: seq<byte>, from: nat, end: nat, skipped: nat)
    requires from <= end <= |content| && ScannedTo(content[from..], end - from, skipped)
    requires end < |content| ==> content[end] == '\"'
    ensures end == |content| ==> ScanString(content[from..]) == Unclosed
    ensures end < |content| ==>
      (ScanString(content[from..]) == Closed(content[from..end], content[end + 1..])
       && skipped == Skips(content[from..end], false) && !EndsInside(content[from..end], false))
  {
    hide ScanString, Skips, EndsInside, ScannedTo;
    var s := content[from..];
    ScannedAll(s, end - from, skipped);
    if end < |content| {
      assert s[end - from] == content[end];
      assert s[..end - from] == content[from..end] && s[end - from + 1..] == content[end + 1..];
    }
  }

  lemma {:induction false} SliceMore(s: seq<byte>, a: nat, p: nat, e: nat, n: nat)
    requires a <= p <= e <= |s| && n <= e - p
    ensures s[a..p] + s[p..e][..n] == s[a..p + n]
    ensures s[p..e][n..] == s[p + n..e]
  {
    SubSlice(s, p, e, 0, n);
    SubSlice(s, p, e, n, e - p);
  }

  lemma {:induction false} SubSlice(s: seq<byte>, p: nat, e: nat, i: nat, j: nat)
    requires p <= e <= |s| && i <= j <= e - p
    ensures s[p..e][i..j] == s[p + i..p + j]
  {
    forall k | 0 <= k < j - i ensures s[p..e][i..j][k] == s[p + i..p + j][k] {
      assert s[p..e][i..j][k] == s[p..e][i + k];
    }
  }

  // The room a round of the second pass has: what is written so far, the round
  // and a terminator fit in what the first pass reserved.
  lemma {:induction false} RoundRoom(done: seq<byte>, left: seq<byte>, length: nat)
    requires left != [] && !EndsInside(done + left, false) && UnescapeStep(left).Step?
    requires length + Skips(done, false) <= |done|
    ensures var r := UnescapeStep(left);
      && length + |r.out| + Skips(done + left[..r.length], false) <= |done| + r.length
      && Skips(done + left[..r.length], false) <= Skips(done + left, false)
      && length + |r.out| < |done + left| + 2 - Skips(done + left, false)
  {
    hide UnescapeStep, Skips, EndsInside;
    var n := UnescapeStep(left).length;
    SkipsSplit(done, left, false);
    StepRoom(left, EndsInside(done, false));
    assert left == left[..n] + left[n..];
    SkipsSplit(left[..n], left[n..], EndsInside(done, false));
    SkipsSplit(done, left[..n], false);
  }

  // ------------------------------------------------------------------
  // The buffer

  class ParseBuffer {
    const content: seq<byte>
    var offset: nat
    var depth: nat

    /** The buffer cJSON_ParseWithOpts sets up: the text and its terminator. */
    constructor (text: seq<byte>)
      ensures content == text + [NUL] && offset == 0 && depth == 0
    {
      content := text + [NUL];
      offset := 0;
      depth := 0;
    }

    ghost predicate Valid()
      reads `offset
    {
      Terminated(content) && offset < |content|
    }

    /** The input that is still to be read. */
    ghost function Rest(): seq<byte>
      requires offset <= |content|
      reads `offset
    {
      content[offset..]
    }

    method SkipWhitespace()
      requires Valid()
      modifies `offset
      ensures Valid() && Rest() == SkipWs(old(Rest()))
      ensures offset >= old(offset)
    {
      while offset < |content| && content[offset] as int <= 32
        invariant old(offset) <= offset <= |content|
        invariant offset < |content| ==> SkipWs(content[offset..]) == SkipWs(old(Rest()))
        invariant offset == |content| ==> SkipWs(old(Rest())) == content[|content| - 1..]
      {
        assert content[offset..][1..] == content[offset + 1..];
        offset := offset + 1;
      }
      if offset == |content| {
        offset := offset - 1;
      }
    }

    method SkipUtf8Bom()
      requires Valid() && offset == 0
      modifies `offset
      ensures Valid() && Rest() == SkipBom(old(Rest()))
    {
      assert content[0..] == content;
      if offset + 4 < |content| && content[offset..offset + 3] == BOM {
        offset := offset + 3;
      }
    }

    // ----------------------------------------------------------------
    // Numbers

    /** The copy loop of parse_number: at most 63 chars, and a terminator. */
    method CopyNumber(number: array<byte>) returns (i: nat)
      requires Valid() && number.Length == 64
      modifies number
      ensures i == NumberRun(Rest(), 63) < 64 && number[..i] == Rest()[..i] && number[i] == NUL
    {
      hide NumberChar, NumberRun;
      ghost var s := Rest();
      i := 0;
      assert s[0..] == s;
      while i < 63 && offset + i < |content| && NumberChar(content[offset + i])
        invariant i <= 63 && offset + i <= |content|
        invariant number[..i] == s[..i]
        invariant NumberRun(s, 63) == i + NumberRun(s[i..], 63 - i)
      {
        NumberRunRound(s[i..], 63 - i);
        assert s[i..][1..] == s[i + 1..] && s[i] == content[offset + i];
        number[i] := content[offset + i];
        i := i + 1;
      }
      NumberRunRound(s[i..], 63 - i);
      number[i] := NUL;
    }

    /** parse_number: strtod says how many of the copied chars count. */
    method ParseNumber() returns (ok: bool, t: Json)
      requires Valid()
      modifies `offset
      ensures ok ==> Valid() && offset > old(offset)
      ensures JsonParse.ParseNumber(old(Rest())) == if ok then Done(t, Rest()) else Fail
    {
      hide StrtodLength, NumberChar, NumberRun;
      var number := new byte[64];
      var i := CopyNumber(number);
      var n := StrtodLength(number[..i]);
      ok, t := n > 0, Null;
      if ok {
        ghost var s := Rest();
        assert s[..n] == content[offset..offset + n] && s[n..] == content[offset + n..];
        t := Number(content[offset..offset + n]);
        offset := offset + n;
        assert JsonParse.ParseNumber(s) == Done(t, content[offset..]);
      }
    }

    // ----------------------------------------------------------------
    // Strings

    /** parse_hex4. */
    method ParseHex4(p: nat) returns (h: nat)
      requires p + 4 <= |content|
      ensures h == Hex4(content[p..p + 4])
    {
      h := 0;
      var i := 0;
      while i < 4
        invariant 0 <= i <= 4
        invariant i > 0 ==> HexValue(content[p]) >= 0
        invariant i > 1 ==> HexValue(content[p + 1]) >= 0
        invariant i > 2 ==> HexValue(content[p + 2]) >= 0
        invariant i == 0 ==> h == 0
        invariant i == 1 ==> h == 16 * HexValue(content[p])
        invariant i == 2 ==> h == 16 * (16 * HexValue(content[p]) + HexValue(content[p + 1]))
        invariant i == 3 ==>
          h == 16 * (16 * (16 * HexValue(content[p]) + HexValue(content[p + 1])) + HexValue(content[p + 2]))
        invariant i == 4 ==> h == Hex4(content[p..p + 4])
      {
        var digit := HexValue(content[p + i]);
        if digit < 0 {
          return 0;
        }
        h := h + digit;
        if i < 3 {
          h := 16 * h;
        }
        i := i + 1;
      }
    }

    /** The end of utf16_literal_to_utf8: the last bytes first, six bits each. */
    method EncodeUtf8(cp: nat, output: array<byte>, at: nat) returns (next: nat)
      requires cp <= 0x10FFFF && at + |Utf8(cp)| <= output.Length
      modifies output
      ensures next == at + |Utf8(cp)|
      ensures output[..at] == old(output[..at]) && output[at..next] == Utf8(cp)
    {
      var length, mark := 1, 0;
      if cp >= 0x10000 {
        length, mark := 4, 0xF0;
      } else if cp >= 0x800 {
        length, mark := 3, 0xE0;
      } else if cp >= 0x80 {
        length, mark := 2, 0xC0;
      }
      var position, c := length - 1, cp;
      while position > 0
        invariant 0 <= position < length
        invariant position == length - 1 ==> c == cp
        invariant position == length - 2 ==> c == cp / 0x40
        invariant position == length - 3 ==> c == cp / 0x1000
        invariant position == length - 4 ==> c == cp / 0x40000
        invariant position < length - 1 ==> output[at + length - 1] == (0x80 + cp % 0x40) as char
        invariant position < length - 2 ==> output[at + length - 2] == (0x80 + cp / 0x40 % 0x40) as char
        invariant position < length - 3 ==> output[at + length - 3] == (0x80 + cp / 0x1000 % 0x40) as char
        invariant output[..at] == old(output[..at])
      {
        Shifts(cp);
        output[at + position] := (0x80 + c % 0x40) as char;
        c := c / 0x40;
        position := position - 1;
      }
      output[at] := (mark + c) as char;
      next := at + length;
    }

    /** utf16_literal_to_utf8: the length of the escape, or zero if it is bad. */
    method Utf16LiteralToUtf8(p: nat, inputEnd: nat, output: array<byte>, at: nat)
      returns (sequenceLength: nat, next: nat)
      requires p < inputEnd <= |content| && at <= output.Length
      requires var lit := Utf16Literal(content[p..inputEnd]);
        lit.CodePoint? ==> at + |Utf8(lit.cp)| <= output.Length
      modifies output
      ensures output[..at] == old(output[..at])
      ensures var lit := Utf16Literal(content[p..inputEnd]);
        if lit.CodePoint? then
          sequenceLength == lit.length && next == at + |Utf8(lit.cp)| <= output.Length && output[at..next] == Utf8(lit.cp)
        else sequenceLength == 0
    {
      hide Utf8, Hex4;
      sequenceLength, next := 0, at;
      ghost var body := content[p..inputEnd];
      if inputEnd - p < 6 {
        return;
      }
      SubSlice(content, p, inputEnd, 2, 6);
      var first := ParseHex4(p + 2);
      if 0xDC00 <= first <= 0xDFFF {
        return;
      }
      if 0xD800 <= first <= 0xDBFF {
        if inputEnd - (p + 6) < 6 || content[p + 6] != '\\' || content[p + 7] != 'u' {
          return;
        }
        assert body[6] == content[p + 6] && body[7] == content[p + 7];
        SubSlice(content, p, inputEnd, 8, 12);
        var second := ParseHex4(p + 8);
        if second < 0xDC00 || second > 0xDFFF {
          return;
        }
        next := EncodeUtf8(0x10000 + (first - 0xD800) * 0x400 + (second - 0xDC00), output, at);
        sequenceLength := 12;
      } else {
        next := EncodeUtf8(first, output, at);
        sequenceLength := 6;
      }
    }

    /** The first pass of parse_string: where the string ends and how many
        backslashes to leave out of the size of the output. */
    method FindEnd() returns (closed: bool, inputEnd: nat, skipped: nat)
      requires Valid()
      ensures !closed ==> ScanString(content[offset + 1..]) == Unclosed
      ensures closed ==> offset < inputEnd < |content|
      ensures closed ==>
        (var body := content[offset + 1..inputEnd];
         ScanString(content[offset + 1..]) == Closed(body, content[inputEnd + 1..])
         && skipped == Skips(body, false) && !EndsInside(body, false))
    {
      hide ScanString, Skips, EndsInside, ScannedTo;
      ghost var s := content[offset + 1..];
      closed, inputEnd, skipped := false, offset + 1, 0;
      ScannedNothing(s);
      while inputEnd < |content| && content[inputEnd] != '\"'
        invariant offset < inputEnd <= |content|
        invariant ScannedTo(s, inputEnd - offset - 1, skipped)
      {
        assert s[inputEnd - offset - 1] == content[inputEnd];
        ScannedRound(s, inputEnd - offset - 1, skipped);
        if content[inputEnd] == '\\' {
          if inputEnd + 1 >= |content| {
            return;
          }
          skipped := skipped + 1;
          inputEnd := inputEnd + 1;
        }
        inputEnd := inputEnd + 1;
      }
      ScannedEnd(content, offset + 1, inputEnd, skipped);
      closed := inputEnd < |content|;
    }

    /** The second pass of parse_string: never past the end of the output, whether
        or not the string turns out to be good. */
    method UnescapeBody(inputEnd: nat, output: array<byte>) returns (ok: bool, length: nat)
      requires Valid() && offset < inputEnd < |content| && content[inputEnd] == '\"'
      requires !EndsInside(content[offset + 1..inputEnd], false)
      requires output.Length == inputEnd - offset + 1 - Skips(content[offset + 1..inputEnd], false)
      modifies output
      ensures ok ==> length < output.Length && output[length] == NUL
      ensures Unescape(content[offset + 1..inputEnd]) == if ok then Text(output[..length]) else BadText
    {
      hide UnescapeStep, Skips, EndsInside, Unescape;
      ghost var body := content[offset + 1..inputEnd];
      ghost var done := [];
      var p := offset + 1;
      length := 0;
      NothingDone(body);
      while p < inputEnd
        invariant offset < p <= inputEnd + 1
        invariant done == content[offset + 1..MinOf(p, inputEnd)]
        invariant length + Skips(done, false) <= |done|
        invariant length < output.Length
        invariant Unescape(body) == Prepend(output[..length], Unescape(content[MinOf(p, inputEnd)..inputEnd]))
      {
        ghost var left := content[p..inputEnd];
        ghost var before := output[..length];
        ghost var was := length;
        assert body == done + left;
        UnescapeRound(left);
        if UnescapeStep(left).Step? {
          RoundRoom(done, left, length);
        }
        var taken;
        ok, taken, length := UnescapeNext(p, inputEnd, output, length);
        if !ok {
          return;
        }
        p := p + taken;
        ghost var n := UnescapeStep(left).length;
        PrependMore(before, UnescapeStep(left).out, Unescape(left[n..]));
        assert output[..length] == before + UnescapeStep(left).out;
        SliceMore(content, offset + 1, p - taken, inputEnd, n);
        done := done + left[..n];
      }
      assert content[MinOf(p, inputEnd)..inputEnd] == [];
      UnescapeNothing(output[..length]);
      output[length] := NUL;
      ok := true;
    }

    /** One round of the second pass. */
    method UnescapeNext(p: nat, inputEnd: nat, output: array<byte>, at: nat)
      returns (ok: bool, taken: nat, next: nat)
      requires p < inputEnd < |content| && content[inputEnd] == '\"' && at < output.Length
      requires var r := UnescapeStep(content[p..inputEnd]);
        r.Step? ==> at + |r.out| < output.Length
      modifies output
      ensures var r := UnescapeStep(content[p..inputEnd]);
        ok == r.Step?
        && (ok ==> next == at + |r.out| && output[..next] == old(output[..at]) + r.out
                   && 0 < taken <= inputEnd - p + 1 && r.length == MinOf(taken, inputEnd - p))
    {
      hide Utf16Literal, Utf8, SimpleEscape;
      ghost var left := content[p..inputEnd];
      ok, taken, next := true, 2, at;
      if content[p] != '\\' {
        output[at] := content[p];
        taken, next := 1, at + 1;
      } else {
        var c := content[p + 1];
        assert c == if |left| > 1 then left[1] else '\"';
        if c == 'u' {
          taken, next := Utf16LiteralToUtf8(p, inputEnd, output, at);
          ok := taken != 0;
          if ok {
            assert output[..next] == output[..at] + output[at..next];
          }
        } else {
          var e := SimpleEscape(c);
          if e == [] {
            ok := false;
          } else {
            output[at] := e[0];
            assert e == [e[0]];
            next := at + 1;
          }
        }
      }
    }

    /** parse_string: the string is what a C string shows of the output. */
    method ParseString() returns (ok: bool, s: seq<byte>)
      requires Valid()
      modifies `offset
      ensures ok ==> Valid() && offset > old(offset)
      ensures JsonParse.ParseString(old(Rest())) == if ok then Str(s, Rest()) else BadString
    {
      hide ScanString, Unescape, Skips, EndsInside;
      ok, s := false, [];
      if content[offset] != '\"' {
        return;
      }
      assert Rest()[1..] == content[offset + 1..];
      var closed, inputEnd, skipped := FindEnd();
      if !closed {
        return;
      }
      assert content[inputEnd] == '\"' by { ClosedAtQuote(content[offset + 1..], content[inputEnd + 1..]); }
      var output := new byte[inputEnd - offset - skipped + 1];
      var length;
      ok, length := UnescapeBody(inputEnd, output);
      if ok {
        s := CString(output[..length]);
        offset := inputEnd + 1;
        StringEnds(old(Rest()), Rest());
      }
    }

    // ----------------------------------------------------------------
    // Values

    /** parse_value. */
    method ParseValue() returns (ok: bool, t: Json)
      requires Valid()
      modifies `offset, `depth
      ensures ok ==> Valid() && offset > old(offset) && depth == old(depth)
      ensures JsonParse.ParseValue(old(Rest()), old(depth)) == if ok then Done(t, Rest()) else Fail
      decreases |content| - offset, 1
    {
      hide JsonParse.ParseString, JsonParse.ParseNumber, JsonParse.ParseArray, JsonParse.ParseObject, Terminated;
      ghost var s := Rest();
      Ends(content, offset);
      ok, t := true, Null;
      if offset + 4 <= |content| && content[offset..offset + 4] == "null" {
        assert s[..4] == "null" && s[4..] == content[offset + 4..];
        offset := offset + 4;
        LiteralEnds(s, "null");
        return;
      }
      assert |s| >= 4 ==> s[..4] == content[offset..offset + 4];
      if offset + 5 <= |content| && content[offset..offset + 5] == "false" {
        assert s[..5] == "false" && s[5..] == content[offset + 5..];
        offset := offset + 5;
        LiteralEnds(s, "false");
        t := False;
        return;
      }
      assert |s| >= 5 ==> s[..5] == content[offset..offset + 5];
      if offset + 4 <= |content| && content[offset..offset + 4] == "true" {
        assert s[4..] == content[offset + 4..];
        offset := offset + 4;
        LiteralEnds(s, "true");
        t := True;
        return;
      }
      if content[offset] == '\"' {
        var text;
        ok, text := ParseString();
        t := String(text);
      } else if content[offset] == '-' || IsDigit(content[offset]) {
        ok, t := ParseNumber();
      } else if content[offset] == '[' {
        ok, t := ParseArray();
      } else if content[offset] == '{' {
        ok, t := ParseObject();
      } else {
        ok := false;
      }
    }

    /** The start that parse_array and parse_object share: an empty one is read whole,
        else the offset is left on the char before the first item. */
    method Enter(open: byte, close: byte) returns (ok: bool, empty: bool)
      requires Valid() && open != NUL && close != NUL
      modifies `offset, `depth
      ensures ok <==> old(depth) < NESTING_LIMIT && old(Rest())[0] == open
      ensures ok ==> Terminated(old(Rest())) && Terminated(old(Rest())[1..])
      ensures ok ==> (empty <==> SkipWs(old(Rest())[1..])[0] == close)
      ensures ok && empty ==>
        (Valid() && Rest() == SkipWs(old(Rest())[1..])[1..] && depth == old(depth) && offset > old(offset))
      ensures ok && !empty ==>
        (offset + 1 < |content| && Terminated(content) && content[offset + 1..] == SkipWs(old(Rest())[1..])
         && depth == old(depth) + 1 && offset >= old(offset))
    {
      hide SkipWs, Terminated;
      ok, empty := false, false;
      ghost var s := Rest();
      Ends(content, offset);
      if depth >= NESTING_LIMIT {
        return;
      }
      depth := depth + 1;
      if content[offset] != open {
        return;
      }
      OpenEnds(s);
      assert s[1..] == content[offset + 1..];
      OffsetEnds(content, offset + 1);
      offset := offset + 1;
      SkipWhitespace();
      ghost var inner := Rest();
      ok := true;
      if content[offset] == close {
        empty := true;
        depth := depth - 1;
        OpenEnds(inner);
        assert inner[1..] == content[offset + 1..];
        OffsetEnds(content, offset + 1);
        offset := offset + 1;
      } else {
        offset := offset - 1;
      }
    }

    /** parse_array. */
    method ParseArray() returns (ok: bool, t: Json)
      requires Valid()
      modifies `offset, `depth
      ensures ok ==> Valid() && offset > old(offset) && depth == old(depth)
      ensures JsonParse.ParseArray(old(Rest()), old(depth)) == if ok then Done(t, Rest()) else Fail
      decreases |content| - offset, 0
    {
      hide JsonParse.ParseItems, JsonParse.ParseArray, SkipWs, Terminated;
      ghost var s, d := Rest(), depth;
      Ends(content, offset);
      NoArray(s, d);
      t := Array([]);
      var empty;
      ok, empty := Enter('[', ']');
      if !ok {
        return;
      }
      RoundTrip.ArrayRound(s, d, SkipWs(s[1..]));
      if !empty {
        var items;
        ok, items := ParseItems();
        if ok {
          depth := depth - 1;
          t := Array(items);
        }
      }
    }

    /** The loop of parse_array, from the char before the first item, and the closing bracket. */
    method ParseItems() returns (ok: bool, items: seq<Json>)
      requires offset + 1 < |content| && Terminated(content)
      modifies `offset, `depth
      ensures ok ==> Valid() && offset > old(offset) && depth == old(depth)
      ensures JsonParse.ParseItems(old(content[offset + 1..]), old(depth))
           == if ok then DoneItems(items, Rest()) else FailItems
      decreases |content| - offset - 1, 3
    {
      hide JsonParse.ParseItems, SkipWs, JsonParse.ParseValue, BehindItems, EndedItems;
      ghost var d := depth;
      ghost var inner := content[offset + 1..];
      BehindItemsNone(JsonParse.ParseItems(inner, d));
      items := [];
      var more := true;
      while more
        invariant old(offset) <= offset && depth == d
        invariant more ==> offset + 1 < |content|
        invariant more ==>
          JsonParse.ParseItems(inner, d) == BehindItems(items, JsonParse.ParseItems(content[offset + 1..], d))
        invariant !more ==> Valid() && offset > old(offset)
        invariant !more ==> JsonParse.ParseItems(inner, d) == EndedItems(items, Rest())
        decreases |content| - offset, more
      {
        ghost var s := content[offset + 1..];
        BehindItemsFail(items);
        var v;
        ok, v := NextValue();
        if !ok {
          RoundTrip.ItemsRound(s, d);
          return;
        }
        ItemRound(items, s, v, Rest(), d);
        items := items + [v];
        more := content[offset] == ',';
        assert Rest()[1..] == content[offset + 1..];
      }
      ok := content[offset] == ']';
      EndedItemsIs(items, Rest());
      if ok {
        assert Rest()[1..] == content[offset + 1..];
        offset := offset + 1;
      }
    }

    /** parse_object. */
    method ParseObject() returns (ok: bool, t: Json)
      requires Valid()
      modifies `offset, `depth
      ensures ok ==> Valid() && offset > old(offset) && depth == old(depth)
      ensures JsonParse.ParseObject(old(Rest()), old(depth)) == if ok then Done(t, Rest()) else Fail
      decreases |content| - offset, 0
    {
      hide JsonParse.ParseMembers, JsonParse.ParseObject, SkipWs, Terminated;
      ghost var s, d := Rest(), depth;
      Ends(content, offset);
      NoObject(s, d);
      t := Object([]);
      var empty;
      ok, empty := Enter('{', '}');
      if !ok {
        return;
      }
      RoundTrip.ObjectRound(s, d, SkipWs(s[1..]));
      if !empty {
        var members;
        ok, members := ParseMembers();
        if ok {
          depth := depth - 1;
          t := Object(members);
        }
      }
    }

    /** The loop of parse_object, from the char before the first key, and the closing brace. */
    method ParseMembers() returns (ok: bool, members: seq<Member>)
      requires offset + 1 < |content| && Terminated(content)
      modifies `offset, `depth
      ensures ok ==> Valid() && offset > old(offset) && depth == old(depth)
      ensures JsonParse.ParseMembers(old(content[offset + 1..]), old(depth))
        == if ok then DoneMembers(members, Rest()) else FailMembers
      decreases |content| - offset - 1, 4
    {
      hide JsonParse.ParseMembers, SkipWs, JsonParse.ParseValue, BehindMembers, EndedMembers;
      ghost var d := depth;
      ghost var inner := content[offset + 1..];
      BehindMembersNone(JsonParse.ParseMembers(inner, d));
      members := [];
      var more := true;
      while more
        invariant old(offset) <= offset && depth == d
        invariant more ==> offset + 1 < |content|
        invariant more ==>
          JsonParse.ParseMembers(inner, d) == BehindMembers(members, JsonParse.ParseMembers(content[offset + 1..], d))
        invariant !more ==> Valid() && offset > old(offset)
        invariant !more ==> JsonParse.ParseMembers(inner, d) == EndedMembers(members, Rest())
        decreases |content| - offset, more
      {
        ghost var s := content[offset + 1..];
        BehindMembersFail(members);
        var m;
        ok, m := NextMember();
        if !ok {
          return;
        }
        MemberRound(members, s, m, Rest(), d);
        members := members + [m];
        more := content[offset] == ',';
        assert Rest()[1..] == content[offset + 1..];
      }
      ok := content[offset] == '}';
      EndedMembersIs(members, Rest());
      if ok {
        assert Rest()[1..] == content[offset + 1..];
        offset := offset + 1;
      }
    }

    /** One round of that loop: the key, the colon and the value. */
    method NextMember() returns (ok: bool, m: Member)
      requires offset + 1 < |content| && Terminated(content)
      modifies `offset, `depth
      ensures ok ==> Valid() && offset > old(offset) + 1 && depth == old(depth)
      ensures !ok ==> JsonParse.ParseMembers(old(content[offset + 1..]), old(depth)) == FailMembers
      ensures ok ==> MemberRead(old(content[offset + 1..]), old(depth), m, Rest())
      decreases |content| - offset - 1, 3
    {
      hide SkipWs, JsonParse.ParseValue, JsonParse.ParseString;
      m := Member([], Null);
      ghost var s := content[offset + 1..];
      offset := offset + 1;
      SkipWhitespace();
      var key;
      ok, key := ParseString();
      if !ok {
        return;
      }
      SkipWhitespace();
      ghost var colon := Rest();
      if content[offset] != ':' {
        ok := false;
        return;
      }
      assert colon[1..] == content[offset + 1..];
      var v;
      ok, v := NextValue();
      m := Member(key, v);
    }

    /** What both loops do for a value: past the char before it, blanks, the value, blanks. */
    method NextValue() returns (ok: bool, v: Json)
      requires offset + 1 < |content| && Terminated(content)
      modifies `offset, `depth
      ensures ok ==> Valid() && offset > old(offset) + 1 && depth == old(depth)
      ensures var p := JsonParse.ParseValue(SkipWs(old(content[offset + 1..])), old(depth));
        if ok then p.Done? && v == p.value && Rest() == SkipWs(p.rest) else p.Fail?
      decreases |content| - offset - 1, 2
    {
      hide SkipWs, JsonParse.ParseValue;
      offset := offset + 1;
      SkipWhitespace();
      ok, v := ParseValue();
      if ok {
        SkipWhitespace();
      }
    }
  }

  lemma NumberRunRound(s: seq<byte>, limit: nat)
    ensures NumberRun(s, limit)
         == if limit > 0 && s != [] && NumberChar(s[0]) then 1 + NumberRun(s[1..], limit - 1) else 0
  {}

  lemma Ends(content: seq<byte>, offset: nat)
    requires Terminated(content) && offset < |content|
    ensures Terminated(content[offset..])
  {}

  /** cJSON_ParseWithOpts on a C string. */
  method ParseWithOpts(text: seq<byte>, requireNullTerminated: bool) returns (d: Document)
    ensures d == ParseDocument(text, requireNullTerminated)
  {
    hide JsonParse.ParseValue, SkipWs;
    var buffer := new ParseBuffer(text);
    assert buffer.Rest() == text + [NUL];
    buffer.SkipUtf8Bom();
    buffer.SkipWhitespace();
    var ok, t := buffer.ParseValue();
    if !ok {
      return NoDocument;
    }
    if requireNullTerminated {
      buffer.SkipWhitespace();
      if buffer.content[buffer.offset] != NUL {
        return NoDocument;
      }
    }
    return Document(t);
  }

  lemma NoArray(s: seq<byte>, d: nat)
    requires Terminated(s)
    ensures d >= NESTING_LIMIT || s[0] != '[' ==> JsonParse.ParseArray(s, d) == Fail
  {}

  lemma NoObject(s: seq<byte>, d: nat)
    requires Terminated(s)
    ensures d >= NESTING_LIMIT || s[0] != '{' ==> JsonParse.ParseObject(s, d) == Fail
  {}

  lemma OpenEnds(s: seq<byte>)
    requires Terminated(s) && s[0] != NUL
    ensures Terminated(s[1..])
  {}

  lemma OffsetEnds(content: seq<byte>, offset: nat)
    requires offset <= |content| && Terminated(content[offset..])
    ensures offset < |content|
  {}

  lemma {:induction false} LiteralEnds(s: seq<byte>, p: seq<byte>)
    requires Terminated(s) && StartsWith(s, p) && p != [] && p[|p| - 1] != NUL
    ensures |p| < |s|
  {
    assert s[|p| - 1] == s[..|p|][|p| - 1];
  }

  /** A round of the loop of parse_object at s reads this member, up to the text after it. */
  predicate MemberRead(s: seq<byte>, d: nat, m: Member, after: seq<byte>)
    requires Terminated(s)
  {
    var k := JsonParse.ParseString(SkipWs(s));
    && k.Str? && k.s == m.key
    && var colon := SkipWs(k.rest);
    && colon[0] == ':'
    && var p := JsonParse.ParseValue(SkipWs(colon[1..]), d);
    p.Done? && p.value == m.value && SkipWs(p.rest) == after
  }

  lemma {:induction false} MemberRound(members: seq<Member>, s: seq<byte>, m: Member, after: seq<byte>, d: nat)
    requires Terminated(s) && Terminated(after) && MemberRead(s, d, m, after)
    ensures after[0] == ',' ==> Terminated(after[1..])
    ensures BehindMembers(members, JsonParse.ParseMembers(s, d))
      == if after[0] == ',' then BehindMembers(members + [m], JsonParse.ParseMembers(after[1..], d))
         else EndedMembers(members + [m], after)
  {
    hide JsonParse.ParseValue, SkipWs, JsonParse.ParseString;
    var r := JsonParse.ParseMembers(s, d);
    if after[0] == ',' {
      var more := JsonParse.ParseMembers(after[1..], d);
      if more.DoneMembers? {
        assert members + ([m] + more.members) == members + [m] + more.members;
      }
    }
  }

  lemma {:induction false} ItemRound(items: seq<Json>, s: seq<byte>, v: Json, after: seq<byte>, d: nat)
    requires Terminated(s) && Terminated(after)
    requires var p := JsonParse.ParseValue(SkipWs(s), d);
      p.Done? && p.value == v && SkipWs(p.rest) == after
    ensures after[0] == ',' ==> Terminated(after[1..])
    ensures BehindItems(items, JsonParse.ParseItems(s, d))
      == if after[0] == ',' then BehindItems(items + [v], JsonParse.ParseItems(after[1..], d))
         else EndedItems(items + [v], after)
  {
    hide JsonParse.ParseItems, JsonParse.ParseValue, SkipWs;
    RoundTrip.ItemsRound(s, d);
    if after[0] == ',' {
      var r := JsonParse.ParseItems(after[1..], d);
      if r.DoneItems? {
        assert items + ([v] + r.items) == items + [v] + r.items;
      }
    }
  }

  lemma Shifts(cp: nat)
    ensures cp / 0x40 / 0x40 == cp / 0x1000 && cp / 0x1000 / 0x40 == cp / 0x40000
  {}

  function MinOf(a: nat, b: nat): nat { if a < b then a else b }

  lemma ScanEnd(s: seq<byte>)
    ensures s == [] ==> ScanString(s) == Unclosed
    ensures s != [] && s[0] == '\"' ==> ScanString(s) == Closed([], s[1..])
  {}

  lemma NothingDone(body: seq<byte>)
    ensures Skips([], false) == 0 && Unescape(body) == Prepend([], Unescape(body))
  {}

  lemma {:induction false} UnescapeRound(left: seq<byte>)
    requires left != []
    ensures var r := UnescapeStep(left);
      Unescape(left) == if r.BadStep? then BadText else Prepend(r.out, Unescape(left[r.length..]))
  {
    hide UnescapeStep;
  }

  lemma UnescapeNothing(t: seq<byte>)
    ensures Prepend(t, Unescape([])) == Text(t)
  {}

  lemma {:induction false} ClosedAtQuote(s: seq<byte>, rest: seq<byte>)
    requires ScanString(s).Closed? && ScanString(s).rest == rest
    ensures |rest| < |s| && s[|s| - |rest| - 1] == '\"'
  {
    var body := ScanString(s).body;
    assert s == body + ("\"" + rest);
  }

  lemma StringEnds(s: seq<byte>, rest: seq<byte>)
    requires Terminated(s) && JsonParse.ParseString(s).Str? && JsonParse.ParseString(s).rest == rest
    ensures Terminated(rest)
  {}
}
