// The loops that write and read formatted data.

module FormattedOutput {
  import opened Bytes
  import opened Arith
  import opened Text
  import opened EclData
  import opened FormattedText
  import opened FormattedFile
  import EclHeader
  import Chars = FormattedLayout
  import Writer = EclOutput

  // One field and its line break, in terms of what is still to be written.
  lemma {:induction false} LinesRound(l: Layout, fields: seq<seq<byte>>, i: nat, n: nat, written: seq<byte>)
    requires LayoutOk(l) && i < |fields| && n < l.block
    ensures Next(l, n + 1) < l.block
    ensures written + Lines(l, fields[i..], n)
         == written + fields[i] + Break(l, n + 1) + Lines(l, fields[i + 1..], Next(l, n + 1))
  {
    hide Breaks, Next;
    NextBelow(l, n);
    var rest := Lines(l, fields[i + 1..], Next(l, n + 1));
    assert fields[i..][1..] == fields[i + 1..] && fields[i..][0] == fields[i];
    Assoc(written, fields[i], Break(l, n + 1) + rest);
    Assoc(written + fields[i], Break(l, n + 1), rest);
  }

  lemma Gathered(s: seq<byte>, name: seq<byte>, count: seq<byte>)
    ensures s + " '" + name + "' " + count == s + (" '" + (name + ("' " + count)))
  {}

  // The parts of a header line in the order in which they are written.
  lemma HeaderParts(s: seq<byte>, name: seq<byte>, count: seq<byte>, tag: seq<byte>)
    ensures s + (" '" + (name + ("' " + count))) + (" '" + tag + "'\n")
         == s + ((" " + ("'" + (name + ("'" + ((" " + (count + " ")) + ("'" + (tag + ("'" + "")))))))) + "\n")
  {}

  lemma LinesEnd(l: Layout, n: nat, written: seq<byte>)
    requires LayoutOk(l) && n < l.block
    ensures written + Lines(l, [], n) == if n % l.columns != 0 && n % l.block != 0 then written + "\n" else written
  {}

  /** What the loops count of n elements, in an int. */
  function Counted(n: nat): (k: nat)
    ensures k <= n && (n <= INT_MAX ==> k == n)
  {
    if Wrap32(n) < 0 then 0 else Wrap32(n) as nat
  }

  /** Arrays the writer can lay out: strings are written on lines that have a column. */
  predicate HasColumns(a: FArr) {
    a.typ.C0NN? && Counted(Count(a.data)) > 0 ==> a.width <= 77
  }

  /** The columns of the strings that are counted. */
  function StringLines(ss: seq<seq<byte>>, w: nat): seq<byte>
    requires StringsFit(ss, w) && (Counted(|ss|) > 0 ==> w <= 77)
  {
    ColumnsFit(w);
    if Counted(|ss|) == 0 then [] else Lines(LayoutOf(C0NN, w), QuotedFields(ss[..Counted(|ss|)], w), 0)
  }

  /** What is left behind the header of an array. */
  function FData(a: FArr): seq<byte>
    requires FShaped(a) && HasColumns(a)
  {
    match a.data
    case Texts(ts) =>
      var l := LayoutOf(a.typ, a.width);
      Lines(l, Columns(ts[..Counted(|ts|)], l.width), 0)
    case Strings(ss) => StringLines(ss, a.width)
    case NoData => []
  }

  /** What the writer leaves behind for one array: its image in the file format, with
      a count and data that an int has cut short. */
  function FImage(a: FArr): seq<byte>
    requires FShaped(a) && HasColumns(a) && |a.name| <= 8
  {
    HeaderLine(a.name, Wrap32(Count(a.data)), a.typ, a.width) + ("\n" + FData(a))
  }

  // What is left behind for an array that can come back is its image.
  lemma {:induction false} ImageOfWritable(a: FArr)
    requires FWritable(a)
    ensures FImage(a) == EncodeF(a)
  {
    hide Lines, HeaderLine, Columns, QuotedFields;
    match a.data
    case Texts(ts) => assert ts[..|ts|] == ts;
    case Strings(ss) =>
      assert ss[..|ss|] == ss;
      ColumnsFit(a.width);
      if ss == [] {
        NoFields(LayoutOf(a.typ, a.width), a.width);
      }
    case NoData =>
  }

  lemma NoFields(l: Layout, w: nat)
    requires LayoutOk(l)
    ensures Lines(l, QuotedFields([], w), 0) == []
  {
    DivIs(0, l.columns, 0, 0);
  }

  /** Behind the 31 chars of its header, the data of an array stands char by char. */
  ghost predicate DataAt(s: seq<byte>, p: nat, a: FArr)
    requires a.typ.C0NN? ==> a.width <= 77
  {
    match a.data
    case Texts(ts) => !a.typ.C0NN? && Chars.TextsAt(s, p + 31, a.typ, ts)
    case Strings(ss) => Chars.StringsAt(s, p + 31, a.typ, a.width, ss)
    case NoData => |s| == p + 31
  }

  lemma {:induction false} ImageLaidOut(before: seq<byte>, a: FArr)
    requires FShaped(a) && |a.name| <= 8 && Count(a.data) <= INT_MAX && (a.typ.C0NN? ==> a.width <= 77)
    ensures DataAt(before + FImage(a), |before|, a)
  {
    hide HeaderLine, Lines, Columns, QuotedFields, Wrap32, Chars.TextsAt, Chars.StringsAt;
    var n := Count(a.data);
    HeaderLength(a.name, n, a.typ, a.width);
    ColumnsFit(a.width);
    var s, h := before + FImage(a), HeaderLine(a.name, n, a.typ, a.width);
    assert s == (before + (h + "\n")) + FData(a);
    SplitAt(before + (h + "\n"), FData(a));
    assert s[|before| + 31..] == FData(a);
    match a.data
    case Texts(ts) =>
      assert ts[..|ts|] == ts;
      Chars.TextsLaidOut(s, |before| + 31, a.typ, ts);
    case Strings(ss) =>
      assert ss[..|ss|] == ss;
      if ss == [] {
        NoFields(LayoutOf(a.typ, a.width), a.width);
      }
      Chars.StringsLaidOut(s, |before| + 31, a.typ, a.width, ss);
    case NoData =>
  }

  class FormattedOutput {
    const file: Writer.File

    constructor (file: Writer.File)
      ensures this.file == file
    {
      this.file := file;
    }

    /** writeFormattedHeader: a name, a count and a type, each between its blanks and
        quotes; the quote of the type is opened by its case. */
    method WriteFormattedHeader(arrName: seq<byte>, size: int32, arrType: EclArrType, elementSize: nat)
      returns (r: Result<()>)
      modifies file
      ensures r == if |arrName| <= 8 then Ok(()) else Err(LengthError)
      ensures file.content == old(file.content)
              + if |arrName| <= 8 then HeaderLine(arrName, size, arrType, elementSize) + "\n" else []
    {
      hide PadRight, PadLeft, ToString, Decimal;
      if |arrName| > 8 {
        return Err(LengthError);
      }
      var name := PadRight(arrName, 8);
      file.Append(" '");
      file.Append(name);
      file.Append("' ");
      file.Append(PadLeft(ToString(size), 11, ' '));
      ghost var before := file.content;
      Gathered(old(file.content), name, PadLeft(ToString(size), 11, ' '));
      var c0nn := [];
      if arrType.C0NN? {
        c0nn := ['C'] + PadLeft(Decimal(elementSize), 3, '0');
      }
      match arrType {
        case INTE => file.Append(" 'INTE'\n");
        case REAL => file.Append(" 'REAL'\n");
        case DOUB => file.Append(" 'DOUB'\n");
        case LOGI => file.Append(" 'LOGI'\n");
        case CHAR => file.Append(" 'CHAR'\n");
        case C0NN => file.Append(" '" + c0nn + "'\n");
        case MESS => file.Append(" 'MESS'\n");
      }
      assert file.content == before + (" '" + TagText(arrType, elementSize) + "'\n");
      HeaderParts(old(file.content), name, PadLeft(ToString(size), 11, ' '), TagText(arrType, elementSize));
      r := Ok(());
    }

    /** One element, and the line break behind it where the line or the block ends. */
    method WriteColumn(l: Layout, text: seq<byte>, n: nat) returns (next: nat)
      requires LayoutOk(l) && n < l.block
      modifies file
      ensures next == Next(l, n + 1) < l.block
      ensures file.content == old(file.content) + PadLeft(text, l.width, ' ') + Break(l, n + 1)
    {
      hide PadLeft;
      next := n + 1;
      file.Append(PadLeft(text, l.width, ' '));
      if next % l.columns == 0 || next % l.block == 0 {
        file.Append("\n");
      } else {
        assert file.content + "" == file.content;
      }
      if next % l.block == 0 {
        next := 0;
      }
    }

    /** writeFormattedArray: a counter that starts over at the end of each block. */
    method WriteFormattedArray(l: Layout, data: seq<seq<byte>>)
      requires LayoutOk(l) && AllFitting(data, l.width)
      modifies file
      ensures file.content == old(file.content) + Lines(l, Columns(data[..Counted(|data|)], l.width), 0)
    {
      hide Lines, PadLeft, Wrap32, Next;
      var size := Wrap32(|data|);
      ghost var fields := Columns(data[..Counted(|data|)], l.width);
      ghost var goal := file.content + Lines(l, fields, 0);
      assert fields[0..] == fields;
      var n, i := 0, 0;
      while i < size
        invariant 0 <= n < l.block && i <= |fields|
        invariant file.content + Lines(l, fields[i..], n) == goal
      {
        LinesRound(l, fields, i, n, file.content);
        n := WriteColumn(l, data[i], n);
        i := i + 1;
      }
      assert fields[|fields|..] == [];
      LinesEnd(l, n, file.content);
      if n % l.columns != 0 && n % l.block != 0 {
        file.Append("\n");
      }
    }

    /** writeFormattedCharArray: block by block, with a line break behind a last line
        that is not full. */
    method WriteFormattedCharArray(data: seq<seq<byte>>, elementSize: nat)
      requires StringsFit(data, if elementSize < 9 then 8 else elementSize)
      requires Counted(|data|) > 0 ==> elementSize <= 77
      modifies file
      ensures file.content == old(file.content) + StringLines(data, if elementSize < 9 then 8 else elementSize)
    {
      hide Lines, QuotedField, Wrap32;
      var w, columns := elementSize, 80 / (elementSize + 3);
      if elementSize < 9 {
        w, columns := 8, 7;
      }
      ghost var shown := data[..Counted(|data|)];
      if shown == [] {
        assert file.content + [] == file.content;
      } else {
        ColumnsFit(w);
        assert columns == LayoutOf(C0NN, w).columns;
      }
      ghost var l := LayoutOf(C0NN, w);
      ghost var goal := file.content + StringLines(data, w);
      var rest: int, n := Wrap32(|data|), 0;
      assert shown[0..] == shown;
      while rest > 0
        invariant 0 <= n <= |shown| && (rest <= 0 ==> n == |shown|) && (rest > 0 ==> rest == |shown| - n)
        invariant if shown == [] then file.content == goal
                  else LayoutOk(l) && file.content + Lines(l, QuotedFields(shown, w)[n..], 0) == goal
        decreases rest
      {
        var size := if rest > 105 then 105 else rest;
        assert shown <= data;
        WriteBlock(columns, data, w, n, size, |shown|);
        n := n + size;
        rest := if rest > 105 then rest - 105 else 0;
      }
      if shown != [] {
        assert QuotedFields(shown, w)[n..] == [];
        LinesEnd(l, 0, file.content);
      }
    }

    /** One block of the first k strings, from string n on. */
    method WriteBlock(columns: nat, data: seq<seq<byte>>, w: nat, n: nat, size: nat, ghost k: nat)
      requires StringsFit(data, w) && columns == LayoutOf(C0NN, w).columns > 0
      requires n + size <= k <= |data| && 0 < size <= 105 && (size < 105 ==> n + size == k)
      modifies file
      ensures file.content + Lines(LayoutOf(C0NN, w), QuotedFields(data[..k], w)[n + size..], 0)
           == old(file.content) + Lines(LayoutOf(C0NN, w), QuotedFields(data[..k], w)[n..], 0)
    {
      hide Lines, QuotedField;
      ghost var l, fields := LayoutOf(C0NN, w), QuotedFields(data[..k], w);
      ghost var goal := file.content + Lines(l, fields[n..], 0);
      for i := 0 to size
        invariant i < size ==> file.content + Lines(l, fields[n + i..], i) == goal
        invariant i == size ==>
          file.content + (if size % l.columns != 0 then "\n" else "") + Lines(l, fields[n + size..], 0) == goal
      {
        LinesRound(l, fields, n + i, i, file.content);
        LinesStep(l, i);
        file.Append(QuotedField(data[n + i], w));
        ghost var before := file.content;
        if (i + 1) % columns == 0 {
          file.Append("\n");
        }
        assert before + "" == before && file.content + "" == file.content;
        if i + 1 == size && size < 105 {
          LinesEnd(l, size, file.content);
          LinesEnd(l, 0, file.content + "\n");
          LinesEnd(l, 0, file.content);
          assert fields[n + size..] == [];
        }
      }
      if size % columns != 0 {
        file.Append("\n");
      } else {
        assert file.content + "" == file.content;
      }
    }

    /** write<T>: a typed array of the texts of its elements. */
    method Write(name: seq<byte>, arrType: EclArrType, data: seq<seq<byte>>) returns (r: Result<()>)
      requires FShaped(FArr(name, arrType, EclHeader.ElementSize(arrType, 0), Texts(data)))
      modifies file
      ensures r == if |name| <= 8 then Ok(()) else Err(LengthError)
      ensures file.content == old(file.content)
              + if |name| <= 8 then FImage(FArr(name, arrType, EclHeader.ElementSize(arrType, 0), Texts(data))) else []
      ensures |name| <= 8 && |data| <= INT_MAX ==>
        DataAt(file.content, |old(file.content)|, FArr(name, arrType, EclHeader.ElementSize(arrType, 0), Texts(data)))
    {
      hide HeaderLine, Lines, Columns, Wrap32, DataAt;
      ghost var before := file.content;
      var elementSize := if arrType.DOUB? then 8 else 4;
      r := WriteFormattedHeader(name, Wrap32(|data|), arrType, elementSize);
      if r.Ok? {
        WriteFormattedArray(LayoutOf(arrType, elementSize), data);
        if |data| <= INT_MAX {
          ImageLaidOut(before, FArr(name, arrType, EclHeader.ElementSize(arrType, 0), Texts(data)));
        }
      }
    }

    /** write<std::string>: CHAR while every string has at most eight chars, else C0NN
        as wide as the longest. */
    method WriteStrings(name: seq<byte>, data: seq<seq<byte>>) returns (r: Result<()>)
      requires Counted(|data|) > 0 ==> Writer.MaxLength(data) <= 77
      modifies file
      ensures r == if |name| <= 8 then Ok(()) else Err(LengthError)
      ensures FShaped(StringFArr(name, data)) && HasColumns(StringFArr(name, data))
      ensures file.content == old(file.content) + if |name| <= 8 then FImage(StringFArr(name, data)) else []
      ensures |name| <= 8 && |data| <= INT_MAX && Writer.MaxLength(data) <= 77 ==>
        DataAt(file.content, |old(file.content)|, StringFArr(name, data))
    {
      assert data == [] ==> Writer.MaxLength(data) == 0;
      hide HeaderLine, StringLines, Wrap32, Writer.MaxLength, DataAt;
      ghost var before := file.content;
      var maximumLength := 8;
      if |data| > 0 {
        maximumLength := Writer.MaxLength(data);
      }
      if maximumLength > 8 {
        r := WriteStringArray(name, data, C0NN, maximumLength);
      } else {
        r := WriteStringArray(name, data, CHAR, 8);
      }
      if |name| <= 8 && |data| <= INT_MAX && Writer.MaxLength(data) <= 77 {
        ImageLaidOut(before, StringFArr(name, data));
      }
    }

    /** write(name, data, element_size): always C0NN, at least eight chars wide. */
    method WriteC0nn(name: seq<byte>, data: seq<seq<byte>>, elementSize: int32) returns (r: Result<()>)
      requires Counted(|data|) > 0 ==> elementSize <= 77
      requires elementSize < 0 ==> Writer.MaxLength(data) <= 8
      modifies file
      ensures r == if 0 <= elementSize < Writer.MaxLength(data) then Err(StringTooLong)
                   else if |name| <= 8 then Ok(()) else Err(LengthError)
      ensures r.Err? ==> file.content == old(file.content)
      ensures r.Ok? ==>
        var a := FArr(name, C0NN, if elementSize > 8 then elementSize else 8, Strings(data));
        && FShaped(a) && HasColumns(a) && file.content == old(file.content) + FImage(a)
        && (|data| <= INT_MAX && elementSize <= 77 ==> DataAt(file.content, |old(file.content)|, a))
    {
      assert data == [] ==> Writer.MaxLength(data) == 0;
      hide HeaderLine, StringLines, Wrap32, Writer.MaxLength, DataAt;
      ghost var before := file.content;
      ghost var a := FArr(name, C0NN, if elementSize > 8 then elementSize else 8, Strings(data));
      if |data| > 0 {
        if Writer.MaxLength(data) > Unsigned(elementSize) {
          return Err(StringTooLong);
        }
      }
      if elementSize > 8 {
        r := WriteStringArray(name, data, C0NN, elementSize);
      } else {
        r := WriteStringArray(name, data, C0NN, 8);
      }
      if r.Ok? && |data| <= INT_MAX && elementSize <= 77 {
        ImageLaidOut(before, a);
      }
    }

    /** Header and data of a string array. */
    method WriteStringArray(name: seq<byte>, data: seq<seq<byte>>, arrType: EclArrType, width: nat) returns (r: Result<()>)
      requires (arrType.CHAR? && width == 8) || (arrType.C0NN? && width >= 8)
      requires StringsFit(data, width) && (Counted(|data|) > 0 ==> width <= 77)
      modifies file
      ensures r == if |name| <= 8 then Ok(()) else Err(LengthError)
      ensures file.content == old(file.content)
              + if |name| <= 8 then FImage(FArr(name, arrType, width, Strings(data))) else []
    {
      hide HeaderLine, StringLines, Wrap32;
      r := WriteFormattedHeader(name, Wrap32(|data|), arrType, width);
      if r.Ok? {
        WriteFormattedCharArray(data, width);
      }
    }

    /** message: a MESS header without data. */
    method Message(msg: seq<byte>) returns (r: Result<()>)
      modifies file
      ensures r == if |msg| <= 8 then Ok(()) else Err(LengthError)
      ensures file.content == old(file.content) + if |msg| <= 8 then FImage(FArr(msg, MESS, 4, NoData)) else []
    {
      hide HeaderLine;
      r := WriteFormattedHeader(msg, 0, MESS, 4);
    }
  }

  /** The array write<std::string> makes of a list of strings. */
  function StringFArr(name: seq<byte>, data: seq<seq<byte>>): FArr {
    if Writer.MaxLength(data) > 8 then FArr(name, C0NN, Writer.MaxLength(data), Strings(data))
    else FArr(name, CHAR, 8, Strings(data))
  }

  // ------------------------------------------------------------------
  // Reading

  /** find_first_not_of(' ', p), the length of the text standing for npos. */
  method FindNotBlank(s: seq<byte>, p: nat) returns (q: nat)
    requires p <= |s|
    ensures p <= q <= |s| && s[q..] == SkipBlanks(s[p..])
  {
    q := p;
    while q < |s| && s[q] == ' '
      invariant p <= q <= |s| && SkipBlanks(s[q..]) == SkipBlanks(s[p..])
    {
      assert s[q..][1..] == s[q + 1..];
      q := q + 1;
    }
  }

  /** find_first_of(' ', p). */
  method FindBlank(s: seq<byte>, p: nat) returns (q: nat)
    requires p <= |s|
    ensures p <= q <= |s| && s[p..q] == Token(s[p..])
  {
    q := p;
    assert s[p..p] == [];
    while q < |s| && s[q] != ' '
      invariant p <= q <= |s| && s[p..q] + Token(s[q..]) == Token(s[p..])
    {
      assert s[q..][1..] == s[q + 1..];
      assert s[p..q + 1] == s[p..q] + [s[q]];
      Assoc(s[p..q], [s[q]], Token(s[q + 1..]));
      q := q + 1;
    }
    assert s[p..q] + [] == s[p..q];
  }

  function PrependTokens(arr: seq<seq<byte>>, r: Result<seq<seq<byte>>>): Result<seq<seq<byte>>> {
    if r.Err? then r else Ok(arr + r.value)
  }

  lemma {:induction false} PrependOne(arr: seq<seq<byte>>, t: seq<byte>, r: Result<seq<seq<byte>>>)
    ensures PrependTokens([], r) == r && PrependTokens(arr, Ok([])) == Ok(arr)
    ensures r.Ok? ==> PrependTokens(arr, Ok([t] + r.value)) == PrependTokens(arr + [t], r)
  {
    assert r.Ok? ==> [] + r.value == r.value && arr + ([t] + r.value) == arr + [t] + r.value;
    assert arr + [] == arr;
  }

  /** readFormattedArray, up to the conversion of the tokens. */
  method ReadFormattedArray(fileStr: seq<byte>, size: nat, fromPos: nat) returns (r: Result<seq<seq<byte>>>)
    requires fromPos <= |fileStr|
    ensures r == Tokens(fileStr[fromPos..], size)
  {
    hide Token, SkipBlanks;
    var arr: seq<seq<byte>> := [];
    var p1: nat := fromPos;
    ghost var goal := Tokens(fileStr[fromPos..], size);
    PrependOne([], [], goal);
    for i := 0 to size
      invariant p1 <= |fileStr|
      invariant goal == PrependTokens(arr, Tokens(fileStr[p1..], size - i))
    {
      ghost var s := fileStr[p1..];
      p1 := FindNotBlank(fileStr, p1);
      if p1 == |fileStr| {
        return Err(BadTokens);
      }
      var p2 := FindBlank(fileStr, p1);
      var token := fileStr[p1..p2];
      assert fileStr[p1..][|token|..] == fileStr[p2..];
      PrependOne(arr, token, Tokens(fileStr[p2..], size - i - 1));
      arr := arr + [token];
      p1 := p2;
    }
    PrependOne(arr, [], goal);
    r := Ok(arr);
  }

  /** find_first_of('\'', p), -1 for npos. */
  method FindQuote(s: seq<byte>, p: nat) returns (q: int)
    ensures q == QuoteAt(s, p)
  {
    q := p;
    while q < |s| && s[q] != '\''
      invariant q >= p && QuoteAt(s, q) == QuoteAt(s, p)
      decreases |s| - q
    {
      q := q + 1;
    }
    if q >= |s| {
      q := -1;
    }
  }

  ghost function Joined(arr: seq<seq<byte>>, rest: seq<seq<byte>>): seq<seq<byte>> { arr + rest }

  // One round of the loop over strings, in terms of what is still to be read.
  lemma {:induction false} CharsRound(f: seq<byte>, p: nat, n: nat, w: nat, arr: seq<seq<byte>>)
    requires n > 0
    ensures
      var q := QuoteAt(f, p);
      Joined(arr, ReadCharsAt(f, p, n, w))
      == Joined(arr + [Trim(CharsBehind(f, q, w))], ReadCharsAt(f, q + w + 2, n - 1, w))
  {
    hide QuoteAt, Trim, CharsBehind;
    var q := QuoteAt(f, p);
    var t, rest := Trim(CharsBehind(f, q, w)), ReadCharsAt(f, q + w + 2, n - 1, w);
    assert arr + ([t] + rest) == (arr + [t]) + rest;
  }

  /** readFormattedCharArray. */
  method ReadFormattedCharArray(fileStr: seq<byte>, size: nat, fromPos: nat, elementSize: nat)
    returns (arr: seq<seq<byte>>)
    ensures arr == ReadCharsAt(fileStr, fromPos, size, elementSize)
  {
    hide *;
    arr := [];
    var p1: int := fromPos;
    ghost var goal := ReadCharsAt(fileStr, fromPos, size, elementSize);
    JoinedNone(goal);
    for i := 0 to size
      invariant p1 >= 0 && goal == Joined(arr, ReadCharsAt(fileStr, p1, size - i, elementSize))
    {
      CharsRound(fileStr, p1, size - i, elementSize, arr);
      p1 := FindQuote(fileStr, p1);
      var trimmed := Trimr(CharsBehind(fileStr, p1, elementSize));
      arr := arr + [trimmed];
      p1 := p1 + elementSize + 2;
    }
    AtStep(fileStr, p1, 0, elementSize);
    JoinedNone(arr);
  }

  lemma {:induction false} JoinedNone(arr: seq<seq<byte>>)
    ensures Joined(arr, []) == arr && Joined([], arr) == arr
  {
    assert arr + [] == arr && [] + arr == arr;
  }
}
