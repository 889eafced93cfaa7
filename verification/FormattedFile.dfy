// A formatted file: headers of one line and array data in columns. The index
// skips data by its formula, and truncating at a header leaves one of its chars.

module FormattedFile {
  import opened Bytes
  import opened Arith
  import opened Text
  import opened EclData
  import opened FormattedText
  import EclHeader

  // ------------------------------------------------------------------
  // Headers

  const QUOTE: byte := '\''

  predicate NoQuote(s: seq<byte>) {
    forall i :: 0 <= i < |s| ==> s[i] != QUOTE
  }

  predicate NoBreak(s: seq<byte>) {
    forall i :: 0 <= i < |s| ==> s[i] != '\n'
  }

  /** The count of a header, right-aligned in eleven chars between blanks. */
  function CountText(size: int): seq<byte> {
    " " + (PadLeft(ToString(size), 11, ' ') + " ")
  }

  /** The name of a type. Unlike in an unformatted header, that of C0NN is not cut. */
  function TagText(t: EclArrType, width: nat): seq<byte> {
    if t.C0NN? then ['C'] + PadLeft(Decimal(width), 3, '0') else EclHeader.TypeTag(t, width)
  }

  /** The line writeFormattedHeader writes. */
  function HeaderLine(name: seq<byte>, size: int, t: EclArrType, width: nat): seq<byte>
    requires |name| <= 8
  {
    " " + ("'" + (PadRight(name, 8) + ("'" + (CountText(size) + ("'" + (TagText(t, width) + ("'" + "")))))))
  }

  lemma {:induction false} HeaderLength(name: seq<byte>, size: int, t: EclArrType, width: nat)
    requires |name| <= 8 && -TWO31 <= size <= INT_MAX && (t.C0NN? ==> width <= 999)
    ensures |HeaderLine(name, size, t, width)| == 30
  {
    hide Decimal, PadRight, EclHeader.TypeTag;
    DecimalLength(if size < 0 then -size else size, 10);
    DecimalLength(width, 3);
    assert Pow10(3) == 1000;
    TenDigits();
  }

  /** std::getline: up to the line break, or to the end. */
  function Line(s: seq<byte>): (r: seq<byte>)
    ensures |r| <= |s| && r == s[..|r|]
    ensures |r| < |s| ==> s[|r|] == '\n'
  {
    if s == [] || s[0] == '\n' then [] else [s[0]] + Line(s[1..])
  }

  /** The text before the next quote and what follows the quote. */
  datatype Cut = NoCut | Cut(before: seq<byte>, after: seq<byte>)

  function CutAtQuote(s: seq<byte>): (r: Cut)
    ensures r.Cut? ==> s == r.before + ("'" + r.after) && NoQuote(r.before)
    ensures r.NoCut? <==> NoQuote(s)
  {
    if s == [] then NoCut
    else if s[0] == QUOTE then Cut([], s[1..])
    else
      match CutAtQuote(s[1..])
      case NoCut => NoCut
      case Cut(before, after) => Cut([s[0]] + before, after)
  }

  /** The type of a header and its element size. */
  function ParseType(tag: seq<byte>): Result<EclHeader.Typed> {
    if tag == "INTE" then Ok(EclHeader.Typed(INTE, 4))
    else if tag == "REAL" then Ok(EclHeader.Typed(REAL, 4))
    else if tag == "DOUB" then Ok(EclHeader.Typed(DOUB, 8))
    else if tag == "CHAR" then Ok(EclHeader.Typed(CHAR, 8))
    else if tag != [] && tag[0] == 'C' then
      match Stoi(if |tag| >= 4 then tag[1..4] else tag[1..])
      case None => Err(BadNumber)
      case Some(w) => Ok(EclHeader.Typed(C0NN, w))
    else if tag == "LOGI" then Ok(EclHeader.Typed(LOGI, 4))
    else if tag == "MESS" then Ok(EclHeader.Typed(MESS, 4))
    else Err(UnknownType)
  }

  // A width need not be shown with three digits to be read.
  lemma {:induction false} TypeOfWidth(n: nat)
    requires n <= 999
    ensures ParseType("C" + ToString(n)) == Ok(EclHeader.Typed(C0NN, n))
  {
    var d := ToString(n);
    assert Pow10(3) == 1000;
    DecimalLength(n, 3);
    assert AllDigits(d) && IsDigit(d[0]);
    hide Decimal, Stoi, Pow10;
    var tag := "C" + d;
    StoiOfToString([], n, []);
    assert [] + (d + []) == d && tag[1..] == d && |d| <= 3;
    assert |tag| >= 4 ==> tag[1..4] == d;
    assert tag[1] == d[0] && d[0] != 'H';
  }

  datatype Header = Header(name: seq<byte>, num: int, typ: EclArrType, elementSize: int)

  /** readFormattedHeader on its line. */
  function ParseHeader(line: seq<byte>): (r: Result<Header>)
    ensures r.Ok? ==> |r.value.name| == 8
  {
    var a := CutAtQuote(line);
    if a.NoCut? then Err(HeaderSize) else ParseQuoted(a.after)
  }

  /** The header behind its first quote. */
  function ParseQuoted(text: seq<byte>): (r: Result<Header>)
    ensures r.Ok? ==> |r.value.name| == 8
  {
    var name := CutAtQuote(text);
    if name.NoCut? then Err(HeaderSize) else
    var count := CutAtQuote(name.after);
    if count.NoCut? then Err(HeaderSize) else
    var tag := CutAtQuote(count.after);
    if tag.NoCut? then Err(HeaderSize) else
    var num := Stoi(count.before);
    if num.None? then Err(BadNumber) else
    var typed :- ParseType(tag.before);
    if |name.before| != 8 then Err(HeaderSize)
    else Ok(Header(name.before, num.value, typed.typ, typed.elementSize))
  }

  lemma {:induction false} CutBefore(s: seq<byte>, rest: seq<byte>)
    requires NoQuote(s)
    ensures CutAtQuote(s + ("'" + rest)) == Cut(s, rest)
  {
    hide CutAtQuote;
    var t := s + ("'" + rest);
    assert t[|s|] == QUOTE;
    var c := CutAtQuote(t);
    SameCut(c.before, c.after, s, rest);
  }

  // There is one way to cut at the first quote.
  lemma {:induction false} SameCut(a: seq<byte>, b: seq<byte>, c: seq<byte>, d: seq<byte>)
    requires NoQuote(a) && NoQuote(c) && a + ("'" + b) == c + ("'" + d)
    ensures a == c && b == d
  {
    var t := a + ("'" + b);
    assert t[|a|] == QUOTE && t[|c|] == QUOTE;
    assert forall i :: 0 <= i < |a| ==> t[i] == a[i];
    assert forall i :: 0 <= i < |c| ==> t[i] == c[i];
    assert |a| == |c| && t[..|a|] == a && t[..|c|] == c;
    assert t[|a| + 1..] == b && t[|c| + 1..] == d;
  }

  // A quote in the text is where the cut is made, so that what is cut off is shorter.
  lemma {:induction false} CutEarlier(s: seq<byte>, rest: seq<byte>)
    requires !NoQuote(s)
    ensures var c := CutAtQuote(s + rest); c.Cut? && |c.before| < |s|
  {
    if s[0] == QUOTE {
      assert (s + rest)[0] == QUOTE;
    } else {
      assert (s + rest)[1..] == s[1..] + rest;
      var i :| 0 <= i < |s| && s[i] == QUOTE;
      assert s[1..][i - 1] == QUOTE;
      CutEarlier(s[1..], rest);
    }
  }

  lemma {:induction false} NamePadded(name: seq<byte>)
    requires |name| <= 8
    ensures NoQuote(PadRight(name, 8)) <==> NoQuote(name)
  {
    assert forall i :: 0 <= i < |name| ==> PadRight(name, 8)[i] == name[i];
  }

  lemma {:induction false} CountBack(size: int)
    ensures NoQuote(CountText(size)) && NoBreak(CountText(size)) && Stoi(CountText(size)) == Some(size)
  {
    hide Stoi, Decimal;
    var d := ToString(size);
    assert AllDigits(Decimal(if size < 0 then -size else size));
    var lead := seq(if |d| < 11 then 11 - |d| else 0, _ => ' ');
    assert PadLeft(d, 11, ' ') == lead + d;
    assert CountText(size) == (" " + lead) + (d + " ");
    StoiOfToString(" " + lead, size, " ");
  }

  // A type reads back with its element size unless more than three digits show it.
  lemma {:induction false} TagBack(t: EclArrType, width: nat)
    ensures var tag := TagText(t, width);
      && NoQuote(tag) && NoBreak(tag) && ParseType(tag).Ok?
      && (ParseType(tag) == Ok(EclHeader.Typed(t, EclHeader.ElementSize(t, width))) <==> (t.C0NN? ==> width <= 999))
  {
    hide Stoi, Decimal, PadLeft;
    if t.C0NN? {
      EclHeader.C0nnTag(width);
      C0nnDigits(width);
      C0nnStart(width);
      C0nnType(TagText(t, width));
    }
  }

  lemma C0nnStart(width: nat)
    ensures |TagText(C0NN, width)| >= 4 && TagText(C0NN, width)[1..4] == EclHeader.TypeTag(C0NN, width)[1..4]
  {
    hide Decimal;
  }

  lemma {:induction false} C0nnType(tag: seq<byte>)
    requires |tag| >= 4 && tag[0] == 'C' && AllDigits(tag[1..4])
    ensures ParseType(tag) == Ok(EclHeader.Typed(C0NN, DigitsValue(tag[1..4])))
  {
    hide Stoi, DigitsValue;
    StoiOfDigits(tag[1..4], []);
    assert tag[1..4] + [] == tag[1..4];
    assert IsDigit(tag[1..4][0]) && tag[1] == tag[1..4][0] && tag[1] != 'H';
  }

  lemma {:induction false} C0nnDigits(width: nat)
    ensures var tag := TagText(C0NN, width);
      |tag| >= 4 && tag[0] == 'C' && forall i :: 1 <= i < |tag| ==> IsDigit(tag[i])
  {
    hide Decimal;
    var d := Decimal(width);
    assert AllDigits(d);
    assert PadLeft(d, 3, '0') == seq(if |d| < 3 then 3 - |d| else 0, _ => '0') + d;
  }

  // The text of a header reads back, whatever blanks stand before it, if its name has
  // no quote, which would end the name early.
  lemma {:induction false} TextBack(b: nat, name: seq<byte>, size: int, t: EclArrType, width: nat)
    requires |name| <= 8
    ensures
      var r := ParseHeader(Blanks(b) + HeaderLine(name, size, t, width));
      && (r.Ok? <==> NoQuote(name))
      && (r == Ok(Header(PadRight(name, 8), size, t, EclHeader.ElementSize(t, width)))
          <==> NoQuote(name) && (t.C0NN? ==> width <= 999))
  {
    hide PadRight, TagText, Stoi, ParseType, CutAtQuote, CountText;
    var padded, tag, count := PadRight(name, 8), TagText(t, width), CountText(size);
    var last := "'" + "";
    var fromName := padded + ("'" + (count + ("'" + (tag + last))));
    CutBefore(Blanks(b) + " ", fromName);
    assert Blanks(b) + HeaderLine(name, size, t, width) == (Blanks(b) + " ") + ("'" + fromName);
    NamePadded(name);
    if NoQuote(name) {
      CutBefore(padded, count + ("'" + (tag + last)));
      CountBack(size);
      CutBefore(count, tag + last);
      TagBack(t, width);
      CutBefore(tag, "");
    } else {
      CutEarlier(padded, "'" + (count + ("'" + (tag + last))));
    }
  }

  lemma {:induction false} LineEnds(t: seq<byte>, rest: seq<byte>)
    requires NoBreak(t)
    ensures Line(t + ("\n" + rest)) == t
  {
    if t == [] {
      assert t + ("\n" + rest) == "\n" + rest;
    } else {
      LineEnds(t[1..], rest);
      assert (t + ("\n" + rest))[1..] == t[1..] + ("\n" + rest);
      assert [t[0]] + t[1..] == t;
    }
  }

  lemma {:induction false} HeaderHasNoBreak(b: nat, name: seq<byte>, size: int, t: EclArrType, width: nat)
    requires |name| <= 8 && NoBreak(name)
    ensures NoBreak(Blanks(b) + HeaderLine(name, size, t, width))
  {
    hide TagText, CountText;
    assert forall i :: 0 <= i < |name| ==> PadRight(name, 8)[i] == name[i];
    CountBack(size);
    TagBack(t, width);
  }

  // Where a line ends inside a name, no header is left on it.
  lemma {:induction false} BrokenName(b: nat, start: seq<byte>)
    requires |start| < 8
    ensures ParseHeader((Blanks(b) + " ") + ("'" + start)).Err?
  {
    hide CutAtQuote, Stoi, ParseType;
    CutBefore(Blanks(b) + " ", start);
    ShortCut(start);
  }

  lemma ShortCut(s: seq<byte>)
    ensures CutAtQuote(s).Cut? ==> |CutAtQuote(s).before| < |s|
  {}

  // What getline leaves of a header whose name has a line break.
  lemma {:induction false} BrokenLine(b: nat, name: seq<byte>, size: int, t: EclArrType, width: nat, rest: seq<byte>)
    returns (start: seq<byte>)
    requires |name| <= 8 && !NoBreak(name)
    ensures |start| < 8
    ensures Line(Blanks(b) + (HeaderLine(name, size, t, width) + rest)) == (Blanks(b) + " ") + ("'" + start)
  {
    hide TagText, CountText, Line;
    start := Line(name);
    FirstBreak(name);
    var tail := name[|start| + 1..];
    var more := "'" + (CountText(size) + ("'" + (TagText(t, width) + ("'" + ""))));
    assert name == start + ("\n" + tail);
    var blanks, pad := Blanks(b), Blanks(8 - |name|);
    BreakInside(blanks, start, tail, pad, more, rest);
    assert NoBreak((blanks + " ") + ("'" + start));
    hide NoBreak;
    LineEnds((blanks + " ") + ("'" + start), ((tail + pad) + more) + rest);
  }

  lemma BreakInside(b: seq<byte>, start: seq<byte>, tail: seq<byte>, pad: seq<byte>, more: seq<byte>, rest: seq<byte>)
    ensures b + ((" " + ("'" + (((start + ("\n" + tail)) + pad) + more))) + rest)
         == ((b + " ") + ("'" + start)) + ("\n" + (((tail + pad) + more) + rest))
  {
    assert ((start + ("\n" + tail)) + pad) + more == start + ("\n" + ((tail + pad) + more));
    var x := (tail + pad) + more;
    assert (" " + ("'" + (start + ("\n" + x)))) + rest == " " + (("'" + start) + ("\n" + (x + rest)));
    var y := x + rest;
    assert b + (" " + (("'" + start) + ("\n" + y))) == ((b + " ") + ("'" + start)) + ("\n" + y);
  }

  lemma {:induction false} FirstBreak(s: seq<byte>)
    requires !NoBreak(s)
    ensures |Line(s)| < |s| && NoBreak(Line(s))
  {
    if s[0] != '\n' {
      var i :| 0 <= i < |s| && s[i] == '\n';
      assert s[1..][i - 1] == '\n';
      FirstBreak(s[1..]);
    }
  }

  // A header comes back from the line that getline reads if and only if its name has
  // neither a quote nor a line break; a width comes back if three digits show it.
  lemma {:induction false} HeaderBack(b: nat, name: seq<byte>, size: int, t: EclArrType, width: nat, rest: seq<byte>)
    requires |name| <= 8
    ensures
      var r := ParseHeader(Line(Blanks(b) + (HeaderLine(name, size, t, width) + ("\n" + rest))));
      && (r.Ok? <==> NoQuote(name) && NoBreak(name))
      && (r == Ok(Header(PadRight(name, 8), size, t, EclHeader.ElementSize(t, width)))
          <==> NoQuote(name) && NoBreak(name) && (t.C0NN? ==> width <= 999))
  {
    hide HeaderLine, ParseHeader, PadRight, Line;
    if NoBreak(name) {
      HeaderHasNoBreak(b, name, size, t, width);
      LineEnds(Blanks(b) + HeaderLine(name, size, t, width), rest);
      Assoc(Blanks(b), HeaderLine(name, size, t, width), "\n" + rest);
      TextBack(b, name, size, t, width);
    } else {
      var start := BrokenLine(b, name, size, t, width, "\n" + rest);
      BrokenName(b, start);
    }
  }

  // A quote and a line break, each in a name of three chars.
  lemma {:induction false} NamesThatFail(rest: seq<byte>)
    ensures ParseHeader(Line(HeaderLine("A'B", 1, INTE, 4) + ("\n" + rest))).Err?
    ensures ParseHeader(Line(HeaderLine("A\nB", 1, INTE, 4) + ("\n" + rest))).Err?
  {
    hide HeaderLine, ParseHeader, Line;
    var quoted, broken: seq<byte> := "A'B", "A\nB";
    assert quoted[1] == QUOTE && broken[1] == '\n';
    HeaderBack(0, quoted, 1, INTE, 4, rest);
    HeaderBack(0, broken, 1, INTE, 4, rest);
    assert forall s: seq<byte> :: Blanks(0) + s == s;
  }

  // ------------------------------------------------------------------
  // Arrays

  /** The data of an array: texts for columns, or strings to quote. */
  datatype Data = Texts(ts: seq<seq<byte>>) | Strings(ss: seq<seq<byte>>) | NoData

  datatype FArr = FArr(name: seq<byte>, typ: EclArrType, width: nat, data: Data)

  function Count(d: Data): nat {
    match d
    case Texts(ts) => |ts|
    case Strings(ss) => |ss|
    case NoData => 0
  }

  /** Arrays as the writers form them: texts that fit their columns, strings that fit
      the width of their type. */
  predicate FShaped(a: FArr) {
    && (match a.data
        case Texts(ts) => (a.typ.INTE? || a.typ.REAL? || a.typ.DOUB? || a.typ.LOGI?) && AllFitting(ts, LayoutOf(a.typ, 0).width)
        case Strings(ss) => (a.typ.CHAR? || a.typ.C0NN?) && StringsFit(ss, a.width)
        case NoData => a.typ.MESS?)
    && a.width == EclHeader.ElementSize(a.typ, a.width)
  }

  /** Arrays that come back from a formatted file. */
  predicate FWritable(a: FArr) {
    && |a.name| <= 8 && NoQuote(a.name) && NoBreak(a.name) && Count(a.data) <= INT_MAX
    && FShaped(a) && (a.typ.C0NN? ==> a.width <= 77)
  }

  predicate AllFWritable(arrs: seq<FArr>) {
    forall i :: 0 <= i < |arrs| ==> FWritable(arrs[i])
  }

  lemma {:induction false} LayoutFits(a: FArr)
    requires FWritable(a)
    ensures LayoutOk(LayoutOf(a.typ, a.width))
  {
    ColumnsFit(a.width);
  }

  /** The data of an array in columns. */
  function Body(a: FArr): seq<byte>
    requires FWritable(a)
  {
    LayoutFits(a);
    match a.data
    case Texts(ts) => Lines(LayoutOf(a.typ, a.width), Columns(ts, LayoutOf(a.typ, a.width).width), 0)
    case Strings(ss) => Lines(LayoutOf(a.typ, a.width), QuotedFields(ss, a.width), 0)
    case NoData => []
  }

  function EncodeF(a: FArr): seq<byte>
    requires FWritable(a)
  {
    HeaderLine(a.name, Count(a.data), a.typ, a.width) + ("\n" + Body(a))
  }

  /** The skip over the data. */
  function FSkip(h: Header): Result<nat> {
    if h.num <= 0 then Ok(0)
    else if h.typ.MESS? then Err(MessWithData)
    else if h.elementSize < 0 || !LayoutOk(LayoutOf(h.typ, h.elementSize)) then Err(BadWidth)
    else Ok(SizeOnDiskFormatted(LayoutOf(h.typ, h.elementSize), h.num))
  }

  lemma {:induction false} SkipIsBody(a: FArr)
    requires FWritable(a)
    ensures FSkip(Header(PadRight(a.name, 8), Count(a.data), a.typ, EclHeader.ElementSize(a.typ, a.width)))
         == Ok(|Body(a)|)
  {
    hide PadRight, Lines, SizeOnDiskFormatted;
    LayoutFits(a);
    var l := LayoutOf(a.typ, a.width);
    match a.data
    case Texts(ts) => SizeIsLength(l, Columns(ts, l.width)); EmptySize(l);
    case Strings(ss) => SizeIsLength(l, QuotedFields(ss, a.width)); EmptySize(l);
    case NoData =>
  }

  lemma {:induction false} EmptySize(l: Layout)
    requires LayoutOk(l)
    ensures SizeOnDiskFormatted(l, 0) == 0
  {
    SizeIsLength(l, []);
    DivIs(0, l.columns, 0, 0);
  }

  // ------------------------------------------------------------------
  // The index

  datatype FEntry = FEntry(name: seq<byte>, typ: EclArrType, num: int, elementSize: int, pos: nat)

  /** The index of the rest s of a file from position pos on: the end is where
      fewer than four chars are left. */
  function FIndex(s: seq<byte>, pos: nat): Result<seq<FEntry>>
    decreases |s|
  {
    if |s| < 4 then Ok([])
    else
      var line := Line(s);
      var h :- ParseHeader(line);
      var skip :- FSkip(h);
      var start := |line| + 1;
      var more :- FIndex(if start + skip <= |s| then s[start + skip..] else [], pos + start + skip);
      Ok([FEntry(Trim(h.name), h.typ, h.num, h.elementSize, pos + start)] + more)
  }

  /** An array behind some blanks. */
  datatype Chunk = Chunk(blanks: nat, a: FArr)

  predicate ChunksOk(cs: seq<Chunk>) {
    forall i :: 0 <= i < |cs| ==> FWritable(cs[i].a)
  }

  function EncodeChunks(cs: seq<Chunk>): seq<byte>
    requires ChunksOk(cs)
  {
    if cs == [] then [] else Blanks(cs[0].blanks) + (EncodeF(cs[0].a) + EncodeChunks(cs[1..]))
  }

  function ChunkLength(c: Chunk): nat
    requires FWritable(c.a)
  {
    c.blanks + |EncodeF(c.a)|
  }

  function FEntryOf(c: Chunk, pos: nat): FEntry {
    FEntry(Trim(c.a.name), c.a.typ, Count(c.a.data), c.a.width, pos + c.blanks + 31)
  }

  function FEntriesOf(cs: seq<Chunk>, pos: nat): (es: seq<FEntry>)
    requires ChunksOk(cs)
    ensures |es| == |cs|
  {
    if cs == [] then [] else [FEntryOf(cs[0], pos)] + FEntriesOf(cs[1..], pos + ChunkLength(cs[0]))
  }

  lemma {:induction false} FIndexStep(c: Chunk, rest: seq<byte>, pos: nat)
    requires FWritable(c.a)
    ensures
      FIndex(Blanks(c.blanks) + (EncodeF(c.a) + rest), pos)
      == (var more := FIndex(rest, pos + ChunkLength(c));
          if more.Err? then Err(more.error) else Ok([FEntryOf(c, pos)] + more.value))
  {
    hide HeaderLine, Body, ParseHeader, FSkip, PadRight, Blanks, Line, FIndex;
    var a := c.a;
    BlanksLength(c.blanks);
    var line := Blanks(c.blanks) + HeaderLine(a.name, Count(a.data), a.typ, a.width);
    var s := Blanks(c.blanks) + (EncodeF(a) + rest);
    HeaderLength(a.name, Count(a.data), a.typ, a.width);
    TextBack(c.blanks, a.name, Count(a.data), a.typ, a.width);
    HeaderHasNoBreak(c.blanks, a.name, Count(a.data), a.typ, a.width);
    LineEnds(line, Body(a) + rest);
    ChunkText(Blanks(c.blanks), HeaderLine(a.name, Count(a.data), a.typ, a.width), Body(a), rest);
    SkipIsBody(a);
    TrimPadRight(a.name, 8);
    FIndexRound(s, pos, line, Header(PadRight(a.name, 8), Count(a.data), a.typ, a.width), |Body(a)|);
  }

  lemma FIndexRound(s: seq<byte>, pos: nat, line: seq<byte>, h: Header, skip: nat)
    requires |s| >= 4 && Line(s) == line && ParseHeader(line) == Ok(h) && FSkip(h) == Ok(skip)
    requires |line| + 1 + skip <= |s|
    ensures
      FIndex(s, pos)
      == (var more := FIndex(s[|line| + 1 + skip..], pos + |line| + 1 + skip);
          if more.Err? then Err(more.error)
          else Ok([FEntry(Trim(h.name), h.typ, h.num, h.elementSize, pos + |line| + 1)] + more.value))
  {
    hide ParseHeader, FSkip, Line, Trim;
  }

  lemma ChunkText(b: seq<byte>, h: seq<byte>, body: seq<byte>, rest: seq<byte>)
    ensures var s := b + ((h + ("\n" + body)) + rest);
      && s == (b + h) + ("\n" + (body + rest))
      && s[|b| + |h| + 1 + |body|..] == rest
  {}

  // The index lists the arrays of the file, whatever blanks stand before them and
  // up to three behind the last.
  lemma {:induction false} FIndexOfChunks(cs: seq<Chunk>, trailing: nat, pos: nat)
    requires ChunksOk(cs) && trailing < 4
    ensures FIndex(EncodeChunks(cs) + Blanks(trailing), pos) == Ok(FEntriesOf(cs, pos))
    decreases |cs|
  {
    hide EncodeF, Blanks, FWritable, FEntryOf, FIndex, ChunkLength;
    if cs == [] {
      assert [] + Blanks(trailing) == Blanks(trailing);
      ShortIndex(Blanks(trailing), pos);
    } else {
      var c := cs[0];
      var rest := EncodeChunks(cs[1..]) + Blanks(trailing);
      assert EncodeChunks(cs) + Blanks(trailing) == Blanks(c.blanks) + (EncodeF(c.a) + rest);
      FIndexStep(c, rest, pos);
      FIndexOfChunks(cs[1..], trailing, pos + ChunkLength(c));
    }
  }

  lemma ShortIndex(s: seq<byte>, pos: nat)
    requires |s| < 4
    ensures FIndex(s, pos) == Ok([])
  {}

  // Four blanks behind the last array are taken for a header.
  lemma {:induction false} TrailingIff(cs: seq<Chunk>, trailing: nat, pos: nat)
    requires ChunksOk(cs)
    ensures FIndex(EncodeChunks(cs) + Blanks(trailing), pos).Ok? <==> trailing < 4
    decreases |cs|
  {
    hide EncodeF, Blanks, FWritable, FEntryOf, FIndex, ChunkLength;
    if trailing < 4 {
      FIndexOfChunks(cs, trailing, pos);
    } else if cs == [] {
      assert [] + Blanks(trailing) == Blanks(trailing);
      BlankLine(trailing, pos);
    } else {
      var c := cs[0];
      var rest := EncodeChunks(cs[1..]) + Blanks(trailing);
      assert EncodeChunks(cs) + Blanks(trailing) == Blanks(c.blanks) + (EncodeF(c.a) + rest);
      FIndexStep(c, rest, pos);
      TrailingIff(cs[1..], trailing, pos + ChunkLength(c));
    }
  }

  lemma {:induction false} BlankLine(n: nat, pos: nat)
    requires n >= 4
    ensures FIndex(Blanks(n), pos).Err?
  {
    BlankLineIs(n);
    LeadBlanks(Line(Blanks(n)));
  }

  lemma {:induction false} BlankLineIs(n: nat)
    ensures NoQuote(Line(Blanks(n)))
  {
    var line := Line(Blanks(n));
    assert forall i :: 0 <= i < |line| ==> line[i] == Blanks(n)[i];
  }

  lemma LeadBlanks(s: seq<byte>)
    requires NoQuote(s)
    ensures ParseHeader(s).Err?
  {}

  // ------------------------------------------------------------------
  // Truncation

  /** seekPosition of a formatted file: it takes a header for 30 chars, and so
      stops one char behind its start. */
  function FSeekPosition(e: FEntry): (p: nat)
    ensures p <= e.pos <= p + 30
  {
    if e.pos <= 30 then 0 else e.pos - 30
  }

  lemma {:induction false} FEntryAt(cs: seq<Chunk>, pos: nat, k: nat)
    requires ChunksOk(cs) && k < |cs|
    ensures FEntriesOf(cs, pos)[k] == FEntryOf(cs[k], pos + |EncodeChunks(cs[..k])|)
    decreases k
  {
    hide EncodeF, Blanks, FWritable, FEntryOf;
    if k == 0 {
      assert cs[..0] == [];
    } else {
      FEntryAt(cs[1..], pos + ChunkLength(cs[0]), k - 1);
      assert cs[..k][1..] == cs[1..][..k - 1];
      BlanksLength(cs[0].blanks);
    }
  }

  lemma BlanksLength(n: nat)
    ensures |Blanks(n)| == n
  {}

  lemma {:induction false} EncodeConcat(a: seq<Chunk>, b: seq<Chunk>)
    requires ChunksOk(a) && ChunksOk(b)
    ensures ChunksOk(a + b) && EncodeChunks(a + b) == EncodeChunks(a) + EncodeChunks(b)
  {
    hide EncodeF, Blanks, FWritable;
    if a == [] {
      assert a + b == b;
    } else {
      EncodeConcat(a[1..], b);
      assert (a + b)[1..] == a[1..] + b;
      Nested(Blanks(a[0].blanks), EncodeF(a[0].a), EncodeChunks(a[1..]), EncodeChunks(b));
    }
  }

  lemma Nested(x: seq<byte>, y: seq<byte>, z: seq<byte>, w: seq<byte>)
    ensures (x + (y + z)) + w == x + (y + (z + w))
  {}

  // Truncating at array k keeps the arrays before it, the blanks before it and
  // one more.
  lemma {:induction false} TruncateChunks(cs: seq<Chunk>, k: nat)
    requires ChunksOk(cs) && k < |cs|
    ensures
      var f := EncodeChunks(cs);
      var cut := FSeekPosition(FEntriesOf(cs, 0)[k]);
      cut <= |f| && f[..cut] == EncodeChunks(cs[..k]) + Blanks(cs[k].blanks + 1)
  {
    hide EncodeF, FWritable, EncodeChunks, FEntriesOf;
    FEntryAt(cs, 0, k);
    assert cs == cs[..k] + cs[k..] && cs[k..][0] == cs[k] && cs[k..][1..] == cs[k + 1..];
    EncodeConcat(cs[..k], cs[k..]);
    FromChunk(cs[k..]);
    HeadBlank(cs[k].a);
    var before, b := EncodeChunks(cs[..k]), Blanks(cs[k].blanks);
    var e := EncodeF(cs[k].a);
    var f := before + (b + (e + EncodeChunks(cs[k + 1..])));
    assert f[..|before| + |b| + 1] == before + (b + " ");
    assert b + " " == Blanks(cs[k].blanks + 1);
  }

  lemma FromChunk(cs: seq<Chunk>)
    requires ChunksOk(cs) && cs != []
    ensures EncodeChunks(cs) == Blanks(cs[0].blanks) + (EncodeF(cs[0].a) + EncodeChunks(cs[1..]))
  {}

  lemma HeadBlank(a: FArr)
    requires FWritable(a)
    ensures EncodeF(a) != [] && EncodeF(a)[0] == ' '
  {}

  /** The chunks that some arrays written behind n blanks make. */
  function Fresh(arrs: seq<FArr>, n: nat): (cs: seq<Chunk>)
    ensures |cs| == |arrs| && forall i :: 0 <= i < |cs| ==> cs[i] == Chunk(if i == 0 then n else 0, arrs[i])
  {
    seq(|arrs|, i requires 0 <= i < |arrs| => Chunk(if i == 0 then n else 0, arrs[i]))
  }

  function EncodeFs(arrs: seq<FArr>): seq<byte>
    requires AllFWritable(arrs)
  {
    if arrs == [] then [] else EncodeF(arrs[0]) + EncodeFs(arrs[1..])
  }

  lemma {:induction false} EncodeFresh(arrs: seq<FArr>, n: nat)
    requires AllFWritable(arrs) && arrs != []
    ensures ChunksOk(Fresh(arrs, n)) && EncodeChunks(Fresh(arrs, n)) == Blanks(n) + EncodeFs(arrs)
    decreases |arrs|
  {
    hide EncodeF, FWritable;
    var cs := Fresh(arrs, n);
    if |arrs| > 1 {
      EncodeFresh(arrs[1..], 0);
      assert cs[1..] == Fresh(arrs[1..], 0);
      assert Blanks(0) + EncodeFs(arrs[1..]) == EncodeFs(arrs[1..]);
    } else {
      assert cs[1..] == [] && EncodeFs(arrs[1..]) == [];
    }
  }

  /** The chunks after reopening at array k and writing some arrays. */
  function Reopened(cs: seq<Chunk>, k: nat, arrs: seq<FArr>): seq<Chunk>
    requires k < |cs|
  {
    cs[..k] + Fresh(arrs, cs[k].blanks + 1)
  }

  // Reopening at an array and writing others: the file is again one of arrays and
  // blanks, and its index lists the arrays before, at the same places, and then the
  // new ones.
  lemma {:induction false} ReopenFormatted(cs: seq<Chunk>, k: nat, arrs: seq<FArr>)
    requires ChunksOk(cs) && k < |cs| && AllFWritable(arrs) && arrs != []
    ensures
      var cut := FSeekPosition(FEntriesOf(cs, 0)[k]);
      var g := EncodeChunks(cs)[..if cut <= |EncodeChunks(cs)| then cut else 0] + EncodeFs(arrs);
      && cut <= |EncodeChunks(cs)| && ChunksOk(Reopened(cs, k, arrs))
      && g == EncodeChunks(Reopened(cs, k, arrs))
      && FIndex(g, 0) == Ok(FEntriesOf(Reopened(cs, k, arrs), 0))
      && FEntriesOf(Reopened(cs, k, arrs), 0)[..k] == FEntriesOf(cs, 0)[..k]
  {
    hide EncodeF, FWritable, EncodeChunks, FEntriesOf, FIndex, Fresh, Blanks;
    TruncateChunks(cs, k);
    EncodeFresh(arrs, cs[k].blanks + 1);
    EncodeConcat(cs[..k], Fresh(arrs, cs[k].blanks + 1));
    var r := Reopened(cs, k, arrs);
    assert EncodeChunks(cs[..k]) + Blanks(cs[k].blanks + 1) + EncodeFs(arrs)
        == EncodeChunks(cs[..k]) + (Blanks(cs[k].blanks + 1) + EncodeFs(arrs));
    FIndexOfChunks(r, 0, 0);
    NoBlanks(EncodeChunks(r));
    assert r[..k] == cs[..k];
    EntriesPrefix(r, k, 0);
    EntriesPrefix(cs, k, 0);
  }

  lemma NoBlanks(s: seq<byte>)
    ensures s + Blanks(0) == s
  {}

  lemma {:induction false} EntriesPrefix(cs: seq<Chunk>, k: nat, pos: nat)
    requires ChunksOk(cs) && k <= |cs|
    ensures FEntriesOf(cs, pos)[..k] == FEntriesOf(cs[..k], pos)
    decreases k
  {
    hide EncodeF, FWritable, FEntryOf, ChunkLength;
    if k > 0 {
      EntriesPrefix(cs[1..], k - 1, pos + ChunkLength(cs[0]));
      assert cs[..k][1..] == cs[1..][..k - 1];
    }
  }

  // ------------------------------------------------------------------
  // Loading

  /** What loadFormattedArray makes of the text of an array, before conversion. */
  function FLoad(f: seq<byte>, e: FEntry): Result<Data> {
    if e.typ.MESS? then Ok(NoData)
    else if e.num < 0 || e.elementSize < 0 || !LayoutOk(LayoutOf(e.typ, e.elementSize)) then Err(BadWidth)
    else if e.pos > |f| then Err(ShortRead)
    else
      var size := SizeOnDiskFormatted(LayoutOf(e.typ, e.elementSize), e.num) + 1;
      var text := if e.pos + size <= |f| then f[e.pos..e.pos + size] else f[e.pos..];
      if e.typ.CHAR? || e.typ.C0NN? then
        Ok(Strings(ReadCharsAt(text, 0, e.num, e.elementSize)))
      else
        var ts :- Tokens(text, e.num);
        Ok(Texts(ts))
  }

  /** The data of an array as it comes back: tokens keep the line breaks behind
      them, strings lose their trailing blanks. */
  function Loaded(a: FArr): Data
    requires FShaped(a)
  {
    match a.data
    case Texts(ts) => Texts(WithBreaks(LayoutOf(a.typ, a.width), ts, 0))
    case Strings(ss) => Strings(Trimmed(ss))
    case NoData => NoData
  }

  // Where the data of array k stands, and what follows it.
  lemma {:induction false} ChunkParts(cs: seq<Chunk>, k: nat) returns (pre: seq<byte>, tail: seq<byte>)
    requires ChunksOk(cs) && k < |cs|
    ensures EncodeChunks(cs) == pre + (Body(cs[k].a) + tail) && FEntriesOf(cs, 0)[k].pos == |pre|
    ensures tail == [] || tail[0] == ' '
  {
    hide EncodeChunks, FEntriesOf, HeaderLine, Body, Blanks, FWritable;
    var c := cs[k];
    NameFits(c.a);
    var before, b, h := EncodeChunks(cs[..k]), Blanks(c.blanks), HeaderLine(c.a.name, Count(c.a.data), c.a.typ, c.a.width);
    tail := EncodeChunks(cs[k + 1..]);
    pre := before + (b + (h + "\n"));
    FEntryAt(cs, 0, k);
    assert cs == cs[..k] + cs[k..] && cs[k..][0] == c && cs[k..][1..] == cs[k + 1..];
    EncodeConcat(cs[..k], cs[k..]);
    FromChunk(cs[k..]);
    TailStart(cs[k + 1..]);
    BlanksLength(c.blanks);
    HeaderLength(c.a.name, Count(c.a.data), c.a.typ, c.a.width);
    Regroup(before, b, h, Body(c.a), tail);
  }

  lemma NameFits(a: FArr)
    requires FWritable(a)
    ensures |a.name| <= 8 && Count(a.data) <= INT_MAX && (a.typ.C0NN? ==> a.width <= 999)
  {}

  lemma Regroup(x: seq<byte>, b: seq<byte>, h: seq<byte>, y: seq<byte>, t: seq<byte>)
    ensures x + (b + ((h + ("\n" + y)) + t)) == (x + (b + (h + "\n"))) + (y + t)
  {}

  // The text that is read for an array is its data and the char behind it.
  lemma {:induction false} ReadBody(pre: seq<byte>, a: FArr, tail: seq<byte>)
    requires FWritable(a) && !a.data.NoData? && (tail == [] || tail[0] == ' ')
    ensures
      var f := pre + (Body(a) + tail);
      var l := LayoutOf(a.typ, a.width);
      var text := Body(a) + if tail == [] then [] else tail[..1];
      && LayoutOk(l)
      && FLoad(f, FEntry(Trim(a.name), a.typ, Count(a.data), a.width, |pre|))
         == if a.data.Strings? then
              Ok(Strings(ReadCharsAt(text, 0, Count(a.data), a.width)))
            else
              (var ts := Tokens(text, Count(a.data)); if ts.Err? then Err(ts.error) else Ok(Texts(ts.value)))
  {
    hide Tokens, ReadCharsAt, SizeOnDiskFormatted, Body, Trim;
    LayoutFits(a);
    BodyIsThere(a);
    TextAt(pre, Body(a), tail);
  }

  // Loading array k gives its texts or strings.
  lemma {:induction false} LoadChunk(cs: seq<Chunk>, k: nat)
    requires ChunksOk(cs) && k < |cs|
    ensures FLoad(EncodeChunks(cs), FEntriesOf(cs, 0)[k]) == Ok(Loaded(cs[k].a))
  {
    hide EncodeChunks, FEntriesOf, Tokens, ReadChars, ReadCharsAt, Lines, WithBreaks, Trim;
    var a := cs[k].a;
    FEntryAt(cs, 0, k);
    var pre, tail := ChunkParts(cs, k);
    var rest := if tail == [] then [] else tail[..1];
    if !a.data.NoData? {
      ReadBody(pre, a, tail);
      hide FLoad;
      match a.data
      case Texts(ts) => TokensOfLines(LayoutOf(a.typ, a.width), ts, 0, rest);
      case Strings(ss) =>
        StringsRoundTrip(a.typ, ss, a.width, rest);
        var text := Body(a) + rest;
        assert text[0..] == text;
        CharsAt(text, 0, |ss|, a.width);
    }
  }

  lemma {:induction false} BodyIsThere(a: FArr)
    requires FWritable(a)
    ensures !a.typ.MESS? ==>
      LayoutOk(LayoutOf(a.typ, a.width)) && |Body(a)| == SizeOnDiskFormatted(LayoutOf(a.typ, a.width), Count(a.data))
  {
    hide Lines, SizeOnDiskFormatted;
    LayoutFits(a);
    var l := LayoutOf(a.typ, a.width);
    match a.data
    case Texts(ts) => SizeIsLength(l, Columns(ts, l.width));
    case Strings(ss) => SizeIsLength(l, QuotedFields(ss, a.width));
    case NoData =>
  }

  lemma {:induction false} TailStart(cs: seq<Chunk>)
    requires ChunksOk(cs)
    ensures var tail := EncodeChunks(cs); tail == [] || tail[0] == ' '
  {
    if cs != [] {
      HeadBlank(cs[0].a);
    }
  }

  // The text of the announced size and one char more.
  lemma TextAt(pre: seq<byte>, body: seq<byte>, tail: seq<byte>)
    ensures var f := pre + (body + tail);
      (if |pre| + |body| + 1 <= |f| then f[|pre|..|pre| + |body| + 1] else f[|pre|..])
      == body + (if tail == [] then [] else tail[..1])
  {}
}
