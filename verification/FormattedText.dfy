// Formatted array data: fields of fixed width in columns, with line breaks that
// start over with every block, the size formula for it, and the readers that
// split it on blanks or cut it by width.

module FormattedText {
  import opened Bytes
  import opened Arith
  import opened Text
  import opened EclData

  // ------------------------------------------------------------------
  // Layout

  /** Elements of a block, columns of a line and chars of a column. */
  datatype Layout = Layout(block: nat, columns: nat, width: nat)

  /** block_size_data_formatted, with the adjustment its callers make for C0NN. */
  function LayoutOf(t: EclArrType, elementSize: nat): Layout {
    match t
    case INTE => Layout(1000, 6, 12)
    case REAL => Layout(1000, 4, 17)
    case DOUB => Layout(1000, 3, 23)
    case LOGI => Layout(1000, 25, 3)
    case CHAR => Layout(105, 7, 11)
    case C0NN => Layout(105, 80 / (elementSize + 3), elementSize + 3)
    case MESS => Layout(1, 1, 1)
  }

  /** A layout with at least one column: C0NN elements of at most 77 chars. */
  predicate LayoutOk(l: Layout) {
    l.block > 0 && l.columns > 0
  }

  /** Whether the line ends behind the n-th field of a block. */
  predicate Breaks(l: Layout, n: nat)
    requires LayoutOk(l)
  {
    n % l.columns == 0 || n % l.block == 0
  }

  /** The line break, if any. */
  function Break(l: Layout, n: nat): (s: seq<byte>)
    requires LayoutOk(l)
    ensures |s| == if Breaks(l, n) then 1 else 0
  {
    if Breaks(l, n) then "\n" else ""
  }

  /** The counter behind the n-th field: it starts over at the end of a block. */
  function Next(l: Layout, n: nat): (r: nat)
    requires LayoutOk(l)
    ensures n <= l.block ==> r < l.block
  {
    if n % l.block == 0 then 0 else if n < l.block then n else 0
  }

  /** What the writer loops leave for some fields, n fields into a block. */
  function Lines(l: Layout, fields: seq<seq<byte>>, n: nat): seq<byte>
    requires LayoutOk(l) && n < l.block
  {
    if fields == [] then (if n % l.columns != 0 && n % l.block != 0 then "\n" else "")
    else fields[0] + (Break(l, n + 1) + Lines(l, fields[1..], Next(l, n + 1)))
  }

  predicate AllWide(fields: seq<seq<byte>>, w: nat) {
    forall i :: 0 <= i < |fields| ==> |fields[i]| == w
  }

  // ------------------------------------------------------------------
  // The size formula

  /** Lines a number of elements below a block's takes. */
  function LinesOf(l: Layout, n: nat): nat
    requires LayoutOk(l)
  {
    n / l.columns + if n % l.columns > 0 then 1 else 0
  }

  /** sizeOnDiskFormatted for a type with data. */
  function SizeOnDiskFormatted(l: Layout, num: nat): nat
    requires LayoutOk(l)
  {
    var blocks, last := num / l.block, num % l.block;
    Times(blocks, Times(l.block, l.width) + LinesOf(l, l.block)) + (Times(last, l.width) + LinesOf(l, last))
  }

  // The line breaks seen so far in a block, and the one still to come.
  lemma {:induction false} LinesStep(l: Layout, n: nat)
    requires LayoutOk(l) && n < l.block
    ensures n + 1 < l.block && (n + 1) % l.columns == 0 ==> (n + 1) / l.columns == n / l.columns + 1
    ensures (n + 1) % l.columns != 0 ==> (n + 1) / l.columns == n / l.columns
    ensures n + 1 < l.block ==> Next(l, n + 1) == n + 1 && (Breaks(l, n + 1) <==> (n + 1) % l.columns == 0)
    ensures n + 1 == l.block ==> Next(l, n + 1) == 0 && Breaks(l, n + 1) && LinesOf(l, l.block) == n / l.columns + 1
  {
    QuotientStep(n, l.columns);
    if n + 1 == l.block {
      DivIs(n + 1, l.block, 1, 0);
    } else {
      DivIs(n + 1, l.block, 0, n + 1);
    }
  }

  lemma {:induction false} QuotientStep(n: nat, w: nat)
    requires w > 0
    ensures (n + 1) % w == 0 ==> (n + 1) / w == n / w + 1
    ensures (n + 1) % w != 0 ==> (n + 1) / w == n / w
  {
    var q, r := n / w, n % w;
    DivTimes(n, w);
    TimesIs(q, w);
    TimesIs(q + 1, w);
    TimesNext(q, w);
    if r + 1 == w {
      DivIs(n + 1, w, q + 1, 0);
    } else {
      DivIs(n + 1, w, q, r + 1);
    }
  }

  /** The size of what follows once n fields of a block are written. */
  function SizeFrom(l: Layout, num: nat, n: nat): int
    requires LayoutOk(l) && n < l.block
  {
    SizeOnDiskFormatted(l, n + num) - Times(n, l.width) - n / l.columns
  }

  lemma {:induction false} FirstFieldSize(l: Layout, num: nat, n: nat)
    requires LayoutOk(l) && n < l.block && num > 0
    ensures SizeFrom(l, num, n) == l.width + (if Breaks(l, n + 1) then 1 else 0) + SizeFrom(l, num - 1, Next(l, n + 1))
  {
    hide Breaks, Next, LinesOf;
    LinesStep(l, n);
    TimesNext(n, l.width);
    if n + 1 == l.block {
      BlockSize(l, num - 1);
    }
  }

  lemma {:induction false} BlockSize(l: Layout, num: nat)
    requires LayoutOk(l)
    ensures SizeOnDiskFormatted(l, l.block + num)
         == Times(l.block, l.width) + LinesOf(l, l.block) + SizeOnDiskFormatted(l, num)
    ensures 0 / l.columns == 0
  {
    hide LinesOf;
    DivStep(l.block + num, l.block);
    TimesNext(num / l.block, Times(l.block, l.width) + LinesOf(l, l.block));
    DivIs(0, l.columns, 0, 0);
  }

  lemma {:induction false} LastLine(l: Layout, n: nat)
    requires LayoutOk(l) && n < l.block
    ensures SizeFrom(l, 0, n) == if n % l.columns != 0 && n % l.block != 0 then 1 else 0
  {
    DivIs(n, l.block, 0, n);
    TimesNext(0, Times(l.block, l.width) + LinesOf(l, l.block));
    if n == 0 {
      DivIs(0, l.columns, 0, 0);
    }
  }

  lemma {:induction false} LinesLength(l: Layout, fields: seq<seq<byte>>, n: nat)
    requires LayoutOk(l) && n < l.block && AllWide(fields, l.width)
    ensures |Lines(l, fields, n)| == SizeFrom(l, |fields|, n)
    decreases |fields|
  {
    hide SizeFrom, Breaks, Next;
    if fields == [] {
      LastLine(l, n);
    } else {
      NextBelow(l, n);
      LinesLength(l, fields[1..], Next(l, n + 1));
      FirstFieldSize(l, |fields|, n);
    }
  }

  lemma NextBelow(l: Layout, n: nat)
    requires LayoutOk(l) && n < l.block
    ensures Next(l, n + 1) < l.block
  {}

  // The size formula is the length of what the writer loops write, for every
  // count and for every number of columns, whether or not it divides the block.
  lemma {:induction false} SizeIsLength(l: Layout, fields: seq<seq<byte>>)
    requires LayoutOk(l) && AllWide(fields, l.width)
    ensures |Lines(l, fields, 0)| == SizeOnDiskFormatted(l, |fields|)
  {
    LinesLength(l, fields, 0);
    DivIs(0, l.columns, 0, 0);
    TimesNext(0, l.width);
  }

  // ------------------------------------------------------------------
  // Splitting on blanks

  predicate NoBlank(s: seq<byte>) {
    forall i :: 0 <= i < |s| ==> s[i] != ' '
  }

  function SkipBlanks(s: seq<byte>): (r: seq<byte>)
    ensures |r| <= |s| && (r != [] ==> r[0] != ' ')
  {
    if s != [] && s[0] == ' ' then SkipBlanks(s[1..]) else s
  }

  /** Up to the next blank. */
  function Token(s: seq<byte>): (r: seq<byte>)
    ensures |r| <= |s| && r == s[..|r|] && NoBlank(r)
    ensures s != [] && s[0] != ' ' ==> r != []
  {
    if s == [] || s[0] == ' ' then [] else [s[0]] + Token(s[1..])
  }

  /** readFormattedArray without the conversion: the next n tokens. A line break is
      no blank, so it stays at the end of its token. */
  function Tokens(s: seq<byte>, n: nat): (r: Result<seq<seq<byte>>>)
    ensures r.Ok? ==> |r.value| == n
    decreases n
  {
    if n == 0 then Ok([])
    else
      var t := SkipBlanks(s);
      if t == [] then Err(BadTokens)
      else
        var token := Token(t);
        var more :- Tokens(t[|token|..], n - 1);
        Ok([token] + more)
  }

  lemma {:induction false} SkipLead(b: seq<byte>, s: seq<byte>)
    requires (forall i :: 0 <= i < |b| ==> b[i] == ' ') && s != [] && s[0] != ' '
    ensures SkipBlanks(b + s) == s
    decreases |b|
  {
    if b == [] {
      assert b + s == s;
    } else {
      assert (b + s)[1..] == b[1..] + s;
      SkipLead(b[1..], s);
    }
  }

  lemma {:induction false} TokenEnds(t: seq<byte>, rest: seq<byte>)
    requires NoBlank(t) && (rest == [] || rest[0] == ' ')
    ensures Token(t + rest) == t && (t + rest)[|t|..] == rest
    decreases |t|
  {
    if t == [] {
      assert t + rest == rest;
    } else {
      assert (t + rest)[1..] == t[1..] + rest;
      TokenEnds(t[1..], rest);
      assert [t[0]] + t[1..] == t;
    }
  }

  /** A text that fits in a column with a blank before it. */
  predicate Fitting(t: seq<byte>, w: nat) {
    0 < |t| < w && NoBlank(t)
  }

  predicate AllFitting(ts: seq<seq<byte>>, w: nat) {
    forall i :: 0 <= i < |ts| ==> Fitting(ts[i], w)
  }

  /** setw(w) for every text. */
  function Columns(ts: seq<seq<byte>>, w: nat): (fields: seq<seq<byte>>)
    requires AllFitting(ts, w)
    ensures |fields| == |ts| && AllWide(fields, w)
  {
    seq(|ts|, i requires 0 <= i < |ts| => PadLeft(ts[i], w, ' '))
  }

  /** The tokens of some texts: the last of a line takes the line break along. */
  function WithBreaks(l: Layout, ts: seq<seq<byte>>, n: nat): (r: seq<seq<byte>>)
    requires LayoutOk(l) && n < l.block
    ensures |r| == |ts|
  {
    if ts == [] then []
    else [ts[0] + Mark(l, n, |ts| == 1)] + WithBreaks(l, ts[1..], Next(l, n + 1))
  }

  /** The line break behind the next field, which may be the last. */
  function Mark(l: Layout, n: nat, last: bool): seq<byte>
    requires LayoutOk(l) && n < l.block
  {
    if Breaks(l, n + 1) || (last && Next(l, n + 1) % l.columns != 0) then "\n" else ""
  }

  /** What follows a field starts with a blank once its line break is taken off. */
  lemma {:induction false} LinesStart(l: Layout, ts: seq<seq<byte>>, n: nat, rest: seq<byte>)
    requires LayoutOk(l) && n < l.block && AllFitting(ts, l.width) && ts != []
    ensures var s := Lines(l, Columns(ts, l.width), n) + rest;
      s != [] && s[0] == ' '
  {
    var fields := Columns(ts, l.width);
    assert fields[0][0] == ' ';
  }

  /** What stands behind the first field and its line break. */
  function Behind(l: Layout, ts: seq<seq<byte>>, n: nat, rest: seq<byte>): seq<byte>
    requires LayoutOk(l) && n < l.block && AllFitting(ts, l.width) && ts != []
  {
    if |ts| == 1 then rest else Lines(l, Columns(ts[1..], l.width), Next(l, n + 1)) + rest
  }

  lemma {:induction false} FirstField(l: Layout, ts: seq<seq<byte>>, n: nat, rest: seq<byte>)
    requires LayoutOk(l) && n < l.block && AllFitting(ts, l.width) && ts != []
    requires rest == [] || rest[0] == ' '
    ensures
      var more := Behind(l, ts, n, rest);
      && Lines(l, Columns(ts, l.width), n) + rest == Lead(ts[0], l.width) + ((ts[0] + Mark(l, n, |ts| == 1)) + more)
      && (more == [] || more[0] == ' ')
  {
    hide Breaks, PadLeft, Next;
    var fields, tail := Columns(ts, l.width), Columns(ts[1..], l.width);
    NextBelow(l, n);
    assert fields[1..] == tail;
    PadIs(ts[0], l.width);
    SameText(fields[0], Break(l, n + 1), Lines(l, tail, Next(l, n + 1)), rest);
    if |ts| == 1 {
      LastBreak(l, ts, n, rest);
    } else {
      LinesStart(l, ts[1..], Next(l, n + 1), rest);
    }
    TokenText(Lead(ts[0], l.width), ts[0], Mark(l, n, |ts| == 1), Behind(l, ts, n, rest));
  }

  lemma TokenText(a: seq<byte>, b: seq<byte>, c: seq<byte>, d: seq<byte>)
    ensures (a + b) + (c + d) == a + ((b + c) + d)
  {}

  // Splitting the columns on blanks gives the texts, across line and block ends.
  lemma {:induction false} TokensOfLines(l: Layout, ts: seq<seq<byte>>, n: nat, rest: seq<byte>)
    requires LayoutOk(l) && n < l.block && AllFitting(ts, l.width)
    requires rest == [] || rest[0] == ' '
    ensures Tokens(Lines(l, Columns(ts, l.width), n) + rest, |ts|) == Ok(WithBreaks(l, ts, n))
    decreases |ts|
  {
    hide Breaks, Next, Tokens, Lines, PadLeft;
    if ts == [] {
      NoTokens(Lines(l, Columns(ts, l.width), n) + rest);
    } else {
      NextBelow(l, n);
      FirstField(l, ts, n, rest);
      assert Fitting(ts[0], l.width);
      FirstToken(Lead(ts[0], l.width), ts[0] + Mark(l, n, |ts| == 1), Behind(l, ts, n, rest), |ts|);
      if |ts| == 1 {
        NoTokens(rest);
      } else {
        TokensOfLines(l, ts[1..], Next(l, n + 1), rest);
      }
    }
  }

  /** The blanks setw puts before a text. */
  function Lead(t: seq<byte>, w: nat): (b: seq<byte>)
    requires |t| < w
    ensures forall i :: 0 <= i < |b| ==> b[i] == ' '
  {
    Blanks(w - |t|)
  }

  lemma PadIs(t: seq<byte>, w: nat)
    requires |t| < w
    ensures PadLeft(t, w, ' ') == Lead(t, w) + t
  {}

  lemma SameText(a: seq<byte>, b: seq<byte>, c: seq<byte>, d: seq<byte>)
    ensures (a + (b + c)) + d == a + (b + (c + d))
  {}

  lemma NoTokens(s: seq<byte>)
    ensures Tokens(s, 0) == Ok([])
  {}

  // Behind the last field only its line break is left.
  lemma {:induction false} LastBreak(l: Layout, ts: seq<seq<byte>>, n: nat, rest: seq<byte>)
    requires LayoutOk(l) && n < l.block && |ts| == 1
    ensures Next(l, n + 1) < l.block
    ensures var m := Next(l, n + 1);
      Break(l, n + 1) + (Lines(l, [], m) + rest)
      == Mark(l, n, true) + rest
  {
    LinesStep(l, n);
  }

  lemma {:induction false} FirstToken(lead: seq<byte>, t: seq<byte>, rest: seq<byte>, n: nat)
    requires (forall i :: 0 <= i < |lead| ==> lead[i] == ' ') && t != [] && NoBlank(t)
    requires (rest == [] || rest[0] == ' ') && n > 0
    ensures Tokens(lead + (t + rest), n)
      == (var more := Tokens(rest, n - 1); if more.Err? then Err(more.error) else Ok([t] + more.value))
  {
    hide SkipBlanks, Token;
    assert (t + rest)[0] == t[0] != ' ';
    SkipLead(lead, t + rest);
    TokenEnds(t, rest);
  }

  // ------------------------------------------------------------------
  // Integers and logicals

  function IntTexts(values: seq<int32>): (ts: seq<seq<byte>>)
    ensures |ts| == |values| && forall i :: 0 <= i < |ts| ==> ts[i] == ToString(values[i])
  {
    seq(|values|, i requires 0 <= i < |values| => ToString(values[i]))
  }

  function FlagTexts(values: seq<bool>): (ts: seq<seq<byte>>)
    ensures |ts| == |values| && forall i :: 0 <= i < |ts| ==> ts[i] == if values[i] then "T" else "F"
  {
    seq(|values|, i requires 0 <= i < |values| => if values[i] then "T" else "F")
  }

  /** std::stoi of every token. */
  function Stois(tokens: seq<seq<byte>>): Result<seq<int>> {
    if tokens == [] then Ok([])
    else
      match Stoi(tokens[0])
      case None => Err(BadNumber)
      case Some(v) =>
        var more :- Stois(tokens[1..]);
        Ok([v] + more)
  }

  /** The first char of every token. */
  function Flags(tokens: seq<seq<byte>>): Result<seq<bool>> {
    if tokens == [] then Ok([])
    else if tokens[0] != [] && tokens[0][0] == 'T' then
      var more :- Flags(tokens[1..]);
      Ok([true] + more)
    else if tokens[0] != [] && tokens[0][0] == 'F' then
      var more :- Flags(tokens[1..]);
      Ok([false] + more)
    else Err(BadLogical)
  }

  lemma {:induction false} IntText(v: int32)
    ensures Fitting(ToString(v), 12)
  {
    hide Decimal;
    var n: int := if v < 0 then -(v as int) else v;
    DecimalLength(n, 10);
    TenDigits();
    assert AllDigits(Decimal(n));
  }

  lemma {:induction false} TenDigits()
    ensures Pow10(10) == 10_000_000_000
  {
    assert Pow10(5) == 100_000;
    assert Pow10(8) == 100_000_000;
  }

  lemma {:induction false} StoisBack(l: Layout, values: seq<int32>, n: nat)
    requires LayoutOk(l) && n < l.block
    ensures Stois(WithBreaks(l, IntTexts(values), n)) == Ok(values)
    decreases |values|
  {
    hide Stoi, Decimal, Breaks, Next;
    if values != [] {
      var mark := Mark(l, n, |values| == 1);
      NextBelow(l, n);
      assert IntTexts(values)[1..] == IntTexts(values[1..]);
      StoisBack(l, values[1..], Next(l, n + 1));
      StoiOfToString([], values[0], mark);
      assert [] + (ToString(values[0]) + mark) == ToString(values[0]) + mark;
      assert [values[0] as int] + values[1..] == values;
    }
  }

  lemma {:induction false} FlagsBack(l: Layout, values: seq<bool>, n: nat)
    requires LayoutOk(l) && n < l.block
    ensures Flags(WithBreaks(l, FlagTexts(values), n)) == Ok(values)
    decreases |values|
  {
    hide Breaks, Next;
    if values != [] {
      var mark := Mark(l, n, |values| == 1);
      NextBelow(l, n);
      assert FlagTexts(values)[1..] == FlagTexts(values[1..]);
      FlagsBack(l, values[1..], Next(l, n + 1));
      assert (FlagTexts(values)[0] + mark)[0] == FlagTexts(values)[0][0];
      assert [values[0]] + values[1..] == values;
    }
  }

  // Integers written in columns are read back, whatever their number and sign.
  lemma {:induction false} IntsRoundTrip(values: seq<int32>, rest: seq<byte>)
    requires rest == [] || rest[0] == ' '
    ensures
      var l := LayoutOf(INTE, 4);
      && AllFitting(IntTexts(values), l.width)
      && var tokens := Tokens(Lines(l, Columns(IntTexts(values), l.width), 0) + rest, |values|);
      tokens.Ok? && Stois(tokens.value) == Ok(values)
  {
    hide Tokens, Stois, WithBreaks, Lines;
    forall i | 0 <= i < |values| ensures Fitting(IntTexts(values)[i], 12) {
      IntText(values[i]);
    }
    TokensOfLines(LayoutOf(INTE, 4), IntTexts(values), 0, rest);
    StoisBack(LayoutOf(INTE, 4), values, 0);
  }

  lemma {:induction false} FlagsRoundTrip(values: seq<bool>, rest: seq<byte>)
    requires rest == [] || rest[0] == ' '
    ensures
      var l := LayoutOf(LOGI, 4);
      && AllFitting(FlagTexts(values), l.width)
      && var tokens := Tokens(Lines(l, Columns(FlagTexts(values), l.width), 0) + rest, |values|);
      tokens.Ok? && Flags(tokens.value) == Ok(values)
  {
    hide Tokens, Flags, WithBreaks, Lines;
    TokensOfLines(LayoutOf(LOGI, 4), FlagTexts(values), 0, rest);
    FlagsBack(LayoutOf(LOGI, 4), values, 0);
  }

  // ------------------------------------------------------------------
  // Strings

  predicate StringsFit(ss: seq<seq<byte>>, w: nat) {
    forall i :: 0 <= i < |ss| ==> |ss[i]| <= w
  }

  /** One string, padded and quoted. */
  function QuotedField(s: seq<byte>, w: nat): (r: seq<byte>)
    requires |s| <= w
    ensures |r| == w + 3
  {
    " '" + (PadRight(s, w) + "'")
  }

  function QuotedFields(ss: seq<seq<byte>>, w: nat): (fields: seq<seq<byte>>)
    requires StringsFit(ss, w)
    ensures |fields| == |ss| && AllWide(fields, w + 3)
    ensures forall i :: 0 <= i < |ss| ==> fields[i] == QuotedField(ss[i], w)
  {
    seq(|ss|, i requires 0 <= i < |ss| => QuotedField(ss[i], w))
  }

  /** Up to the next quote, if there is one. */
  function ToQuote(s: seq<byte>): (r: seq<byte>)
    ensures |r| <= |s| && (r != [] ==> r[0] == '\'')
  {
    if s == [] || s[0] == '\'' then s else ToQuote(s[1..])
  }

  /** Where the next quote is from p on; -1 stands for npos. */
  function QuoteAt(f: seq<byte>, p: nat): (q: int)
    ensures q == -1 || p <= q < |f|
    decreases |f| - p
  {
    if p >= |f| then -1 else if f[p] == '\'' then p else QuoteAt(f, p + 1)
  }

  /** substr(q + 1, w). */
  function CharsBehind(f: seq<byte>, q: int, w: nat): (value: seq<byte>)
    requires -1 <= q < |f|
  {
    if q + 1 + w <= |f| then f[q + 1..q + 1 + w] else f[q + 1..]
  }

  /** readFormattedCharArray: a text of fixed width behind every quote. Without one it
      starts over at the front, because npos + 1 is 0. */
  function ReadCharsAt(f: seq<byte>, p: nat, n: nat, w: nat): (r: seq<seq<byte>>)
    ensures |r| == n
    decreases n
  {
    if n == 0 then []
    else
      var q := QuoteAt(f, p);
      [Trim(CharsBehind(f, q, w))] + ReadCharsAt(f, q + w + 2, n - 1, w)
  }

  /** The same on the text from there on, while there are quotes. */
  function ReadChars(s: seq<byte>, n: nat, w: nat): Result<seq<seq<byte>>>
    decreases n
  {
    if n == 0 then Ok([])
    else
      var q := ToQuote(s);
      if q == [] then Err(BadTokens)
      else
        var value := if |q| > w then q[1..w + 1] else q[1..];
        var more :- ReadChars(if |q| >= w + 2 then q[w + 2..] else [], n - 1, w);
        Ok([Trim(value)] + more)
  }

  lemma {:induction false} QuoteIs(f: seq<byte>, p: nat)
    requires p <= |f|
    ensures QuoteAt(f, p) == -1 <==> ToQuote(f[p..]) == []
    ensures QuoteAt(f, p) >= 0 ==> f[QuoteAt(f, p)..] == ToQuote(f[p..])
    decreases |f| - p
  {
    if p < |f| {
      assert f[p..][1..] == f[p + 1..];
      QuoteIs(f, p + 1);
    }
  }

  lemma {:induction false} PastTheEnd(f: seq<byte>, p: nat, n: nat, w: nat)
    requires p > |f| && ReadChars([], n, w).Ok?
    ensures ReadCharsAt(f, p, n, w) == []
  {}

  // The text behind a quote and what is left behind its closing quote.
  lemma CutText(f: seq<byte>, q: nat, w: nat)
    requires q < |f|
    ensures var s := f[q..];
      && CharsBehind(f, q, w) == (if |s| > w then s[1..w + 1] else s[1..])
      && (|s| >= w + 2 ==> q + w + 2 <= |f| && f[q + w + 2..] == s[w + 2..])
      && (|s| < w + 2 ==> q + w + 2 > |f|)
  {
    var s := f[q..];
    if q + 1 + w <= |f| {
      assert s[1..w + 1] == f[q + 1..q + 1 + w];
    } else {
      assert s[1..] == f[q + 1..];
    }
  }

  lemma CharsStep(s: seq<byte>, n: nat, w: nat)
    requires n > 0 && ReadChars(s, n, w).Ok?
    ensures var q := ToQuote(s);
      && q != []
      && var more := ReadChars(if |q| >= w + 2 then q[w + 2..] else [], n - 1, w);
      && more.Ok?
      && ReadChars(s, n, w).value == [Trim(if |q| > w then q[1..w + 1] else q[1..])] + more.value
  {
    hide ToQuote, Trim;
  }

  lemma AtStep(f: seq<byte>, p: nat, n: nat, w: nat)
    ensures n == 0 ==> ReadCharsAt(f, p, n, w) == []
    ensures n > 0 ==>
      (var q := QuoteAt(f, p);
       ReadCharsAt(f, p, n, w) == [Trim(CharsBehind(f, q, w))] + ReadCharsAt(f, q + w + 2, n - 1, w))
  {
    hide QuoteAt, Trim, CharsBehind;
  }

  // Reading the text from some place on is reading it there, if it has enough quotes.
  lemma {:induction false} CharsAt(f: seq<byte>, p: nat, n: nat, w: nat)
    requires p <= |f| && ReadChars(f[p..], n, w).Ok?
    ensures ReadCharsAt(f, p, n, w) == ReadChars(f[p..], n, w).value
    decreases n
  {
    hide ToQuote, QuoteAt, Trim, ReadChars, CharsBehind, ReadCharsAt;
    AtStep(f, p, n, w);
    if n == 0 {
      NoChars(f[p..], w);
    } else {
      CharsStep(f[p..], n, w);
      QuoteIs(f, p);
      var q, s := QuoteAt(f, p), ToQuote(f[p..]);
      CutText(f, q, w);
      if q + w + 2 <= |f| {
        CharsAt(f, q + w + 2, n - 1, w);
        assert f[q + w + 2..] == s[w + 2..];
      } else {
        PastTheEnd(f, q + w + 2, n - 1, w);
        NoMoreChars(n - 1, w);
      }
    }
  }

  lemma NoMoreChars(n: nat, w: nat)
    ensures ReadChars([], n, w).Ok? ==> ReadChars([], n, w).value == []
  {}

  function Trimmed(ss: seq<seq<byte>>): (r: seq<seq<byte>>)
    ensures |r| == |ss| && forall i :: 0 <= i < |r| ==> r[i] == Trim(ss[i])
  {
    seq(|ss|, i requires 0 <= i < |ss| => Trim(ss[i]))
  }

  lemma {:induction false} ReadQuoted(mark: seq<byte>, s: seq<byte>, w: nat, rest: seq<byte>, n: nat)
    requires |s| <= w && n > 0 && (mark == [] || mark == "\n")
    ensures ReadChars(mark + (QuotedField(s, w) + rest), n, w)
      == (var more := ReadChars(rest, n - 1, w); if more.Err? then Err(more.error) else Ok([Trim(s)] + more.value))
  {
    hide PadRight, Trim;
    var value := PadRight(s, w);
    var q := "'" + (value + ("'" + rest));
    var t := mark + (QuotedField(s, w) + rest);
    assert t == (mark + " ") + q;
    ToQuoteStops(mark + " ", q);
    assert q[1..w + 1] == value && q[w + 2..] == rest;
    TrimPadRight(s, w);
  }

  lemma {:induction false} ToQuoteStops(b: seq<byte>, q: seq<byte>)
    requires (forall i :: 0 <= i < |b| ==> b[i] != '\'') && q != [] && q[0] == '\''
    ensures ToQuote(b + q) == q
    decreases |b|
  {
    if b == [] {
      assert b + q == q;
    } else {
      assert (b + q)[1..] == b[1..] + q;
      ToQuoteStops(b[1..], q);
    }
  }

  // Cutting quoted strings by width gives them back without trailing blanks,
  // whatever else they contain, quotes included.
  lemma {:induction false} CharsOfLines(l: Layout, ss: seq<seq<byte>>, w: nat, n: nat, mark: seq<byte>, rest: seq<byte>)
    requires LayoutOk(l) && n < l.block && StringsFit(ss, w) && (mark == [] || mark == "\n")
    ensures ReadChars(mark + (Lines(l, QuotedFields(ss, w), n) + rest), |ss|, w) == Ok(Trimmed(ss))
    decreases |ss|
  {
    hide Breaks, Next, ReadChars, QuotedField, Trim;
    if ss == [] {
      NoChars(mark + (Lines(l, QuotedFields(ss, w), n) + rest), w);
      assert Trimmed(ss) == [];
    } else {
      NextBelow(l, n);
      var fields, tail := QuotedFields(ss, w), QuotedFields(ss[1..], w);
      var b, after := Break(l, n + 1), Lines(l, QuotedFields(ss[1..], w), Next(l, n + 1));
      assert fields[1..] == tail;
      CharsOfLines(l, ss[1..], w, Next(l, n + 1), b, rest);
      SameText(fields[0], b, after, rest);
      ReadQuoted(mark, ss[0], w, b + (after + rest), |ss|);
      assert [Trim(ss[0])] + Trimmed(ss[1..]) == Trimmed(ss);
    }
  }

  lemma NoChars(s: seq<byte>, w: nat)
    ensures ReadChars(s, 0, w) == Ok([])
  {}

  lemma {:induction false} StringsRoundTrip(t: EclArrType, ss: seq<seq<byte>>, w: nat, rest: seq<byte>)
    requires (t.CHAR? && w == 8) || (t.C0NN? && w <= 77)
    requires StringsFit(ss, w)
    ensures var l := LayoutOf(t, w);
      LayoutOk(l) && l.width == w + 3
      && ReadChars(Lines(l, QuotedFields(ss, w), 0) + rest, |ss|, w) == Ok(Trimmed(ss))
  {
    hide ReadChars, Lines;
    var l := LayoutOf(t, w);
    ColumnsFit(w);
    CharsOfLines(l, ss, w, 0, [], rest);
    assert [] + (Lines(l, QuotedFields(ss, w), 0) + rest) == Lines(l, QuotedFields(ss, w), 0) + rest;
  }

  // A C0NN element has a column on a line of 80 chars up to 77 chars, no more.
  lemma ColumnsFit(w: nat)
    ensures 80 / (w + 3) > 0 <==> w <= 77
  {}
}
