// A summary in formatted files: one value by its place in the columns, and the
// formatted LODSMRY file.

module SummaryText {
  import opened Bytes
  import opened Arith
  import opened Text
  import opened EclData
  import opened FormattedText
  import opened FormattedNumbers
  import opened FormattedFile
  import opened SummaryLod
  import LodFile
  import EclHeader
  import BinaryFormat

  const COLUMNS := LayoutOf(REAL, 4)

  // ------------------------------------------------------------------
  // One value

  /** Where LoadData(list) looks for a parameter: blocks of four thousand values, which
      are four blocks of a thousand, then lines of four. */
  method ElementPos(paramPos: nat, stepFilePos: nat) returns (elementPos: nat)
    ensures elementPos == stepFilePos + 17 * paramPos + paramPos / 4
  {
    var blockSize: nat := 1000 * 4 * 17 + (4000 / 4 + if 4000 % 4 > 0 then 1 else 0);
    elementPos := 0;
    var nBlocks := paramPos / 4000;
    var sizeOfLastBlock := paramPos % 4000;
    if nBlocks > 0 {
      elementPos := nBlocks * blockSize;
    }
    var nLines := sizeOfLastBlock / 4;
    elementPos := stepFilePos + elementPos + (sizeOfLastBlock * 17 + nLines);
  }

  /** The place of the k-th field from n fields into a block on. */
  function Place(n: nat, k: nat): (p: nat) { 17 * k + ((n + k) / 4 - n / 4) }

  lemma {:induction false} FieldAt(fields: seq<seq<byte>>, n: nat, k: nat)
    requires n < 1000 && AllWide(fields, 17) && k < |fields|
    ensures
      var p, s := Place(n, k), Lines(COLUMNS, fields, n);
      p + 17 <= |s| && s[p..p + 17] == fields[k]
    decreases k
  {
    var s, tail := Lines(COLUMNS, fields, n), Lines(COLUMNS, fields[1..], Next(COLUMNS, n + 1));
    assert s == fields[0] + (Break(COLUMNS, n + 1) + tail);
    NextBelow(COLUMNS, n);
    Placed(n, k);
    hide Lines, Next, Breaks, Place;
    if k > 0 {
      FieldAt(fields[1..], Next(COLUMNS, n + 1), k - 1);
      Shifted(fields[0], Break(COLUMNS, n + 1), tail, Place(Next(COLUMNS, n + 1), k - 1));
    } else {
      assert s[..17] == fields[0];
    }
  }

  lemma {:induction false} Shifted(a: seq<byte>, b: seq<byte>, c: seq<byte>, q: nat)
    requires q + 17 <= |c|
    ensures (a + (b + c))[|a| + |b| + q..|a| + |b| + q + 17] == c[q..q + 17]
  {
    Assoc(a, b, c);
    Dropped(a + (b + c), |a| + |b|, q);
    assert ((a + b) + c)[|a + b| + q..|a + b| + q + 17] == c[q..q + 17];
  }

  lemma Placed(n: nat, k: nat)
    requires n < 1000
    ensures Place(n, 0) == 0
    ensures k > 0 ==>
      17 + (if Breaks(COLUMNS, n + 1) then 1 else 0) + Place(Next(COLUMNS, n + 1), k - 1) == Place(n, k)
  {}

  /** std::stod: leading blanks, then a number. */
  function Stod(s: seq<byte>): Option<Dec> { Denoted(SkipSpace(s)) }

  predicate NoSpace(s: seq<byte>) { forall i :: 0 <= i < |s| ==> !IsSpace(s[i]) }

  lemma {:induction false} StodSkips(b: seq<byte>, t: seq<byte>)
    requires (forall i :: 0 <= i < |b| ==> b[i] == ' ') && NoSpace(t)
    ensures Stod(b + t) == Denoted(t)
  {
    SkipSpaceStops(b, t);
  }

  // A line break behind a number is not read.
  lemma {:induction false} StodStops(t: seq<byte>)
    requires NoSpace(t)
    ensures Stod(t + "\n") == Denoted(t)
  {
    hide Denoted;
    if t == [] {
      assert t + "\n" == "\n" && SkipSpace("\n") == SkipSpace("\n"[1..]) == [];
    } else {
      SkipSpaceStops([], t + "\n");
      assert [] + (t + "\n") == t + "\n";
      DenotedStops(t);
    }
  }

  lemma {:induction false} DenotedStops(t: seq<byte>)
    requires t != [] && NoSpace(t)
    ensures Denoted(t + "\n") == Denoted(t)
  {
    hide ReadMantissa, ReadShift, DigitsOf;
    var signed := t[0] == '-' || t[0] == '+';
    var u := if signed then t[1..] else t;
    assert (if signed then (t + "\n")[1..] else t + "\n") == u + "\n";
    MantissaStops(u);
    ShiftStops(ReadMantissa(u).rest);
    SameDigits(ReadMantissa(u), ReadMantissa(u + "\n"));
  }

  lemma SameDigits(a: Mantissa, b: Mantissa)
    requires a.whole == b.whole && a.fraction == b.fraction && AllDigits(a.whole) && AllDigits(a.fraction)
    ensures DigitsOf(a) == DigitsOf(b)
  {}

  lemma {:induction false} MantissaStops(u: seq<byte>)
    requires NoSpace(u)
    ensures var m, n := ReadMantissa(u), ReadMantissa(u + "\n");
      m.whole == n.whole && m.fraction == n.fraction && n.rest == m.rest + "\n" && NoSpace(m.rest)
  {
    var whole := DigitRun(u);
    RunStops(u);
    hide DigitRun, IsSpace;
    var v := u[|whole|..];
    assert (u + "\n")[|whole|..] == v + "\n";
    if v != [] && v[0] == '.' {
      RunStops(v[1..]);
      assert (v + "\n")[1..] == v[1..] + "\n";
      assert (v + "\n")[1 + |DigitRun(v[1..])|..] == v[1 + |DigitRun(v[1..])|..] + "\n";
    }
  }

  lemma {:induction false} RunStops(u: seq<byte>)
    ensures DigitRun(u + "\n") == DigitRun(u)
  {
    if u == [] {
      assert u + "\n" == "\n";
    } else if IsDigit(u[0]) {
      RunStops(u[1..]);
      assert (u + "\n")[1..] == u[1..] + "\n";
    }
  }

  lemma {:induction false} ShiftStops(v: seq<byte>)
    requires NoSpace(v)
    ensures ReadShift(v + "\n") == ReadShift(v)
  {
    hide Stoi;
    if v != [] {
      assert (v + "\n")[1..] == v[1..] + "\n";
      StoiStops(v[1..]);
    }
  }

  lemma {:induction false} StoiStops(w: seq<byte>)
    requires NoSpace(w)
    ensures Stoi(w + "\n") == Stoi(w)
  {
    if w == [] {
      assert w + "\n" == "\n" && SkipSpace("\n") == SkipSpace("\n"[1..]) == [];
    } else {
      SkipSpaceStops([], w + "\n");
      SkipSpaceStops([], w);
      assert [] + (w + "\n") == w + "\n" && [] + w == w;
      var u := if w[0] == '-' || w[0] == '+' then w[1..] else w;
      assert (if w[0] == '-' || w[0] == '+' then (w + "\n")[1..] else w + "\n") == u + "\n";
      RunStops(u);
      hide DigitRun;
    }
  }

  lemma {:induction false} BreakAt(ts: seq<seq<byte>>, n: nat, k: nat)
    requires n < 1000 && k < |ts|
    ensures WithBreaks(COLUMNS, ts, n)[k] == ts[k] || WithBreaks(COLUMNS, ts, n)[k] == ts[k] + "\n"
    decreases k
  {
    if k > 0 {
      BreakAt(ts[1..], Next(COLUMNS, n + 1), k - 1);
    } else {
      assert ts[0] + "" == ts[0];
    }
  }

  // The number that is read at the place of a parameter is the number that the scan
  // finds, for every parameter and whatever follows.
  lemma {:induction false} RandomAccessIsScan(ts: seq<seq<byte>>, k: nat, rest: seq<byte>)
    requires AllFitting(ts, 17) && k < |ts| && (rest == [] || rest[0] == ' ')
    requires forall i :: 0 <= i < |ts| ==> NoSpace(ts[i])
    ensures
      var s, p := Lines(COLUMNS, Columns(ts, 17), 0) + rest, 17 * k + k / 4;
      && p + 17 <= |s| && Tokens(s, |ts|).Ok?
      && Stod(s[p..p + 17]) == Stod(Tokens(s, |ts|).value[k]) == Denoted(ts[k])
  {
    hide Lines, Tokens, WithBreaks, Stod, Denoted, NoSpace;
    var lines, p := Lines(COLUMNS, Columns(ts, 17), 0), 17 * k + k / 4;
    FieldAt(Columns(ts, 17), 0, k);
    assert (lines + rest)[p..p + 17] == lines[p..p + 17];
    TokensOfLines(COLUMNS, ts, 0, rest);
    BreakAt(ts, 0, k);
    StodStops(ts[k]);
    StodSkips([], ts[k]);
    assert [] + ts[k] == ts[k];
    PadIs(ts[k], 17);
    StodSkips(Lead(ts[k], 17), ts[k]);
  }

  // ------------------------------------------------------------------
  // The formatted LODSMRY file

  function VectorChunk(n: nat, texts: seq<seq<byte>>): Chunk {
    Chunk(0, FArr("V" + ToString(n), REAL, 4, Texts(texts)))
  }

  function VectorChunks(n: nat, vectors: seq<seq<seq<byte>>>): (cs: seq<Chunk>)
    ensures |cs| == |vectors| && forall i :: 0 <= i < |cs| ==> cs[i] == VectorChunk(n + i, vectors[i])
  {
    seq(|vectors|, i requires 0 <= i < |vectors| => VectorChunk(n + i, vectors[i]))
  }

  function StepFlags(n: nat, seqIndex: seq<int>): (r: seq<bool>)
    ensures |r| == n && forall i :: 0 <= i < n ==> r[i] == (i in seqIndex)
  {
    seq(n, i => i in seqIndex)
  }

  function KeyChunk(keyword: seq<Key>): Chunk {
    Chunk(0, FArr("KEYCHECK", CHAR, 8, Strings(LodFile.PieceTexts(keyword))))
  }

  function StepChunk(nTstep: nat, seqIndex: seq<int>): Chunk {
    Chunk(0, FArr("RSTEP", LOGI, 4, Texts(FlagTexts(StepFlags(nTstep, seqIndex)))))
  }

  /** What make_lodsmry_file writes to a formatted file. */
  function LodChunks(keyword: seq<Key>, nTstep: nat, seqIndex: seq<int>, vectors: seq<seq<seq<byte>>>): seq<Chunk> {
    [KeyChunk(keyword), StepChunk(nTstep, seqIndex)] + VectorChunks(0, vectors)
  }

  /** Vectors of one text per time step, at least one of them and no more than names
      of eight chars can number. */
  predicate LodTextsOk(keyword: seq<Key>, nTstep: nat, vectors: seq<seq<seq<byte>>>) {
    && 0 < |vectors| == |keyword| <= 10_000_000 && nTstep <= INT_MAX
    && forall i :: 0 <= i < |vectors| ==> |vectors[i]| == nTstep && AllFitting(vectors[i], 17)
  }

  function StringItems(ss: seq<seq<byte>>): (r: seq<Item>)
    ensures |r| == |ss| && forall i :: 0 <= i < |r| ==> r[i] == Str(ss[i])
  {
    seq(|ss|, i requires 0 <= i < |ss| => Str(ss[i]))
  }

  function FlagItems(flags: seq<bool>): (r: seq<Item>)
    ensures |r| == |flags| && forall i :: 0 <= i < |r| ==> r[i] == Bool(flags[i])
  {
    seq(|flags|, i requires 0 <= i < |flags| => Bool(flags[i]))
  }

  /** A formatted array: its header from a position on, its data, and the position
      behind the text that was read, which is one char more than its size. */
  datatype Read = Read(name: seq<byte>, num: nat, data: Data, next: nat)

  function ReadFormatted(f: seq<byte>, pos: nat, name: seq<byte>, typ: EclArrType): Result<Read> {
    if pos > |f| then Err(ShortRead)
    else
      var line := Line(f[pos..]);
      var h :- ParseHeader(line);
      if h.name != name || h.typ != typ then Err(BadLodFile)
      else if h.num < 0 || h.elementSize < 0 || !LayoutOk(LayoutOf(typ, h.elementSize)) then Err(BadWidth)
      else
        var data :- FLoad(f, FEntry(Trim(name), typ, h.num, h.elementSize, pos + |line| + 1));
        Ok(Read(name, h.num, data, pos + |line| + 1 + SizeOnDiskFormatted(LayoutOf(typ, h.elementSize), h.num) + 1))
  }

  /** inspect_lodsmry on a formatted file. */
  function InspectText(f: seq<byte>, keyword: seq<Key>): Result<Lod> {
    var check :- ReadFormatted(f, 0, "KEYCHECK", CHAR);
    if !check.data.Strings? || check.num != 3 * |keyword| || !KeysMatch(keyword, StringItems(check.data.ss)) then
      Err(BadLodFile)
    else
      var rstep :- ReadFormatted(f, check.next, "RSTEP   ", LOGI);
      if !rstep.data.Texts? then Err(BadLodFile)
      else
        var flags :- FormattedText.Flags(rstep.data.ts);
        Ok(Lod(SetFlags(FlagItems(flags), 0), rstep.next, |flags|, SizeOnDiskFormatted(COLUMNS, |flags|)))
  }

  /** A header of this name and type stands at a place. */
  ghost predicate HeaderAt(f: seq<byte>, pos: nat, name: seq<byte>, typ: EclArrType, h: Header) {
    pos <= |f| && ParseHeader(Line(f[pos..])) == Ok(h) && h.name == name && h.typ == typ
  }

  /** Where the array of such a header ends, one char behind its text. */
  ghost function EndOf(f: seq<byte>, pos: nat, h: Header): nat
    requires pos <= |f| && h.num >= 0 && h.elementSize >= 0 && LayoutOk(LayoutOf(h.typ, h.elementSize))
  {
    pos + |Line(f[pos..])| + 2 + SizeOnDiskFormatted(LayoutOf(h.typ, h.elementSize), h.num)
  }

  lemma {:induction false} ReadNeedsHeader(f: seq<byte>, pos: nat, name: seq<byte>, typ: EclArrType) returns (h: Header)
    requires ReadFormatted(f, pos, name, typ).Ok?
    ensures HeaderAt(f, pos, name, typ, h) && h.num >= 0 && h.elementSize >= 0 && LayoutOk(LayoutOf(h.typ, h.elementSize))
    ensures var r := ReadFormatted(f, pos, name, typ).value; r.num == h.num && r.next == EndOf(f, pos, h)
  {
    hide Line, ParseHeader, FLoad, SizeOnDiskFormatted, LayoutOf, LayoutOk, Trim;
    h := ParseHeader(Line(f[pos..])).value;
  }

  // What is accepted starts with the keys and goes on with the report flags.
  lemma {:induction false} InspectNeeds(f: seq<byte>, keyword: seq<Key>) returns (check: Header, rstep: Header)
    requires InspectText(f, keyword).Ok?
    ensures HeaderAt(f, 0, "KEYCHECK", CHAR, check) && check.num == 3 * |keyword|
    ensures check.elementSize >= 0 && LayoutOk(LayoutOf(check.typ, check.elementSize))
    ensures HeaderAt(f, EndOf(f, 0, check), "RSTEP   ", LOGI, rstep)
  {
    hide ReadFormatted, HeaderAt, EndOf, KeysMatch, FormattedText.Flags, SizeOnDiskFormatted, SetFlags, LayoutOf, LayoutOk;
    check := ReadNeedsHeader(f, 0, "KEYCHECK", CHAR);
    rstep := ReadNeedsHeader(f, EndOf(f, 0, check), "RSTEP   ", LOGI);
  }

  /** Load_from_lodsmry for one vector of a formatted file, before conversion. */
  function LoadText(f: seq<byte>, lod: Lod, ind: nat): Result<Data> {
    var pos := lod.offset + lod.size * ind + 31 * ind;
    if pos > |f| then Err(ShortRead)
    else
      var line := Line(f[pos..]);
      var h :- ParseHeader(line);
      if Trim(h.name) != "V" + ToString(ind) then Err(BadLodFile)
      else FLoad(f, FEntry("V" + ToString(ind), REAL, lod.nTstep, 4, pos + |line| + 1))
  }

  lemma {:induction false} LodChunksOk(keyword: seq<Key>, nTstep: nat, seqIndex: seq<int>, vectors: seq<seq<seq<byte>>>)
    requires LodTextsOk(keyword, nTstep, vectors)
    ensures FWritable(KeyChunk(keyword).a) && FWritable(StepChunk(nTstep, seqIndex).a)
    ensures forall i :: 0 <= i < |vectors| ==> FWritable(VectorChunk(i, vectors[i]).a)
    ensures ChunksOk(LodChunks(keyword, nTstep, seqIndex, vectors))
  {
    forall i | 0 <= i < |vectors| ensures FWritable(VectorChunk(i, vectors[i]).a) {
      VectorName(i);
      NameIsPlain(i);
    }
    var flags := StepFlags(nTstep, seqIndex);
    assert forall i :: 0 <= i < |flags| ==> Fitting(FlagTexts(flags)[i], 3);
  }

  lemma {:induction false} NameIsPlain(n: nat)
    ensures NoQuote("V" + ToString(n)) && NoBreak("V" + ToString(n))
  {
    var d := Decimal(n);
    assert AllDigits(d);
  }

  // The header and the data of an array are found at its start, and also one char
  // behind, because that char is a blank.
  lemma {:induction false} ChunkAt(cs: seq<Chunk>, k: nat, skip: nat, name: seq<byte>)
    requires ChunksOk(cs) && k < |cs| && cs[k].blanks == 0 && skip <= 1
    ensures
      var f, pos, a := EncodeChunks(cs), |EncodeChunks(cs[..k])| + skip, cs[k].a;
      && pos <= |f| && |Line(f[pos..])| == 30 - skip
      && ParseHeader(Line(f[pos..])) == Ok(Header(PadRight(a.name, 8), Count(a.data), a.typ, a.width))
      && FLoad(f, FEntry(name, a.typ, Count(a.data), a.width, pos + 31 - skip)) == Ok(Loaded(a))
  {
    hide FWritable, ChunksOk, Body, EncodeF, EncodeChunks, FLoad, Loaded, ParseHeader, FEntriesOf, PadRight, Line;
    var a := cs[k].a;
    NameOk(cs, k);
    FirstOk(cs, k);
    var rest := ChunkStart(cs, k);
    LineAt(a, rest, skip);
    Dropped(EncodeChunks(cs), |EncodeChunks(cs[..k])|, skip);
    FEntryAt(cs, 0, k);
    LoadChunk(cs, k);
    AnyName(EncodeChunks(cs), FEntriesOf(cs, 0)[k], name);
  }

  // What the file holds from the start of an array on.
  lemma {:induction false} ChunkStart(cs: seq<Chunk>, k: nat) returns (rest: seq<byte>)
    requires ChunksOk(cs) && k < |cs| && cs[k].blanks == 0
    ensures |EncodeChunks(cs[..k])| + |EncodeF(cs[k].a)| <= |EncodeChunks(cs)|
    ensures EncodeChunks(cs)[|EncodeChunks(cs[..k])|..] == EncodeF(cs[k].a) + rest
  {
    hide FWritable, EncodeF;
    rest := EncodeChunks(cs[k + 1..]);
    assert cs == cs[..k] + cs[k..] && cs[k..][1..] == cs[k + 1..];
    EncodeConcat(cs[..k], cs[k..]);
    FromChunk(cs[k..]);
    hide EncodeChunks;
    SplitAt(EncodeChunks(cs[..k]), EncodeChunks(cs[k..]));
    assert Blanks(0) + (EncodeF(cs[k].a) + rest) == EncodeF(cs[k].a) + rest;
  }

  lemma {:induction false} LineAt(a: FArr, rest: seq<byte>, skip: nat)
    requires FWritable(a) && skip <= 1
    ensures |EncodeF(a)| > skip && |a.name| <= 8
    ensures var line := Line((EncodeF(a) + rest)[skip..]);
      |line| == 30 - skip
      && ParseHeader(line) == Ok(Header(PadRight(a.name, 8), Count(a.data), a.typ, a.width))
  {
    hide Body, ParseHeader, PadRight, Line;
    LineIs(a);
    var line := HeaderLine(a.name, Count(a.data), a.typ, a.width);
    hide HeaderLine, FWritable;
    FromSkip(line, Body(a), rest, skip);
    hide EncodeF;
    LineEnds(line[skip..], Body(a) + rest);
    BlankBefore(line);
  }

  lemma FromSkip(line: seq<byte>, body: seq<byte>, rest: seq<byte>, skip: nat)
    requires skip <= |line|
    ensures ((line + ("\n" + body)) + rest)[skip..] == line[skip..] + ("\n" + (body + rest))
  {}

  lemma AnyName(f: seq<byte>, e: FEntry, name: seq<byte>)
    ensures FLoad(f, FEntry(name, e.typ, e.num, e.elementSize, e.pos)) == FLoad(f, e)
  {}

  lemma {:induction false} LineIs(a: FArr)
    requires FWritable(a)
    ensures |a.name| <= 8
    ensures var line := HeaderLine(a.name, Count(a.data), a.typ, a.width);
      && |line| == 30 && line[0] == ' ' && (forall i :: 0 <= i < 30 ==> line[i] != '\n')
      && ParseHeader(line) == Ok(Header(PadRight(a.name, 8), Count(a.data), a.typ, a.width))
  {
    var line := HeaderLine(a.name, Count(a.data), a.typ, a.width);
    HeaderLength(a.name, Count(a.data), a.typ, a.width);
    HeaderHasNoBreak(0, a.name, Count(a.data), a.typ, a.width);
    TextBack(0, a.name, Count(a.data), a.typ, a.width);
    assert Blanks(0) + line == line;
  }

  lemma {:induction false} BlankBefore(line: seq<byte>)
    requires line != [] && line[0] == ' '
    ensures ParseHeader(line[1..]) == ParseHeader(line)
  {
    assert CutAtQuote(line) == match CutAtQuote(line[1..])
                               case NoCut => NoCut
                               case Cut(before, after) => Cut([' '] + before, after);
    hide CutAtQuote, ParseQuoted;
  }

  // The room an array takes in the file.
  lemma {:induction false} ChunkEnd(cs: seq<Chunk>, k: nat)
    requires ChunksOk(cs) && k < |cs| && cs[k].blanks == 0 && !cs[k].a.typ.MESS?
    ensures var a := cs[k].a;
      && LayoutOk(LayoutOf(a.typ, a.width))
      && |EncodeChunks(cs[..k + 1])|
         == |EncodeChunks(cs[..k])| + 31 + SizeOnDiskFormatted(LayoutOf(a.typ, a.width), Count(a.data))
  {
    hide FWritable, Body, SizeOnDiskFormatted, HeaderLine;
    var a := cs[k].a;
    NameFits(a);
    BodyIsThere(a);
    HeaderLength(a.name, Count(a.data), a.typ, a.width);
    assert cs[..k + 1] == cs[..k] + [cs[k]];
    EncodeConcat(cs[..k], [cs[k]]);
    FromChunk([cs[k]]);
    EmptyChunks();
    hide EncodeChunks;
    assert [cs[k]][1..] == [] && Blanks(0) == [];
  }

  // An array that is read from its start, or from one char behind, is the array
  // written; reading it ends one char behind its data.
  lemma {:induction false} ReadChunk(cs: seq<Chunk>, k: nat, skip: nat)
    requires ChunksOk(cs) && k < |cs| && cs[k].blanks == 0 && skip <= 1 && !cs[k].a.typ.MESS?
    ensures var a := cs[k].a;
      && |a.name| <= 8
      && ReadFormatted(EncodeChunks(cs), |EncodeChunks(cs[..k])| + skip, PadRight(a.name, 8), a.typ)
         == Ok(Read(PadRight(a.name, 8), Count(a.data), Loaded(a), |EncodeChunks(cs[..k + 1])| + 1))
  {
    hide FWritable, ChunksOk, EncodeChunks, PadRight, FLoad, Loaded, ParseHeader, SizeOnDiskFormatted, Trim, Line;
    var a := cs[k].a;
    NameOk(cs, k);
    ChunkAt(cs, k, skip, Trim(PadRight(a.name, 8)));
    ChunkEnd(cs, k);
  }

  lemma NameOk(cs: seq<Chunk>, k: nat)
    requires ChunksOk(cs) && k < |cs|
    ensures |cs[k].a.name| <= 8 && Count(cs[k].a.data) >= 0 && FWritable(cs[k].a)
  {}

  lemma EmptyChunks()
    ensures EncodeChunks([]) == []
  {}

  lemma {:induction false} KeyItems(keyword: seq<Key>)
    ensures StringItems(Trimmed(LodFile.PieceTexts(keyword))) == BinaryFormat.AllCanonical(Pieces(keyword))
  {
    LodFile.PieceArr(keyword);
  }

  // The key check of a formatted file succeeds if and only if the keys are clean. The
  // offset of the vectors is one char too far, which is a blank before the header.
  lemma {:induction false} InspectWrittenText(keyword: seq<Key>, nTstep: nat, seqIndex: seq<int>, vectors: seq<seq<seq<byte>>>)
    requires LodTextsOk(keyword, nTstep, vectors) && Increasing(seqIndex, 0, nTstep)
    ensures ChunksOk(LodChunks(keyword, nTstep, seqIndex, vectors))
    ensures
      var cs := LodChunks(keyword, nTstep, seqIndex, vectors);
      InspectText(EncodeChunks(cs), keyword)
      == if forall n :: 0 <= n < |keyword| ==> Clean(keyword[n])
         then Ok(Lod(seqIndex, |EncodeChunks(cs[..2])| + 1, nTstep, SizeOnDiskFormatted(COLUMNS, nTstep)))
         else Err(BadLodFile)
  {
    hide FWritable, EncodeChunks, ReadFormatted, SizeOnDiskFormatted, KeysMatch, Clean, WithBreaks, SetFlags, PadRight;
    var cs := LodChunks(keyword, nTstep, seqIndex, vectors);
    LodChunksOk(keyword, nTstep, seqIndex, vectors);
    LodNames();
    assert cs[0] == KeyChunk(keyword) && cs[1] == StepChunk(nTstep, seqIndex);
    assert cs[..0] == [];
    EmptyChunks();
    ReadChunk(cs, 0, 0);
    KeyItems(keyword);
    KeysMatchIff(keyword);
    ReadChunk(cs, 1, 1);
    var flags := StepFlags(nTstep, seqIndex);
    FormattedText.FlagsBack(LayoutOf(LOGI, 4), flags, 0);
    assert FlagItems(flags) == SummaryLod.Flags(nTstep, seqIndex);
    SummaryLod.FlagsBack(nTstep, seqIndex, 0, seqIndex);
    assert SummaryLod.Flags(nTstep, seqIndex)[0..] == SummaryLod.Flags(nTstep, seqIndex);
  }

  // All vectors take the same room, which is what the position formula counts.
  lemma {:induction false} VectorsRoom(vectors: seq<seq<seq<byte>>>, nTstep: nat)
    requires |vectors| <= 10_000_000 && nTstep <= INT_MAX && ChunksOk(VectorChunks(0, vectors))
    requires forall i :: 0 <= i < |vectors| ==> |vectors[i]| == nTstep
    ensures |EncodeChunks(VectorChunks(0, vectors))|
         == Times(|vectors|, 31 + SizeOnDiskFormatted(COLUMNS, nTstep))
  {
    hide FWritable, ChunksOk, SizeOnDiskFormatted, EncodeChunks;
    if vectors == [] {
      EmptyChunks();
    } else {
      var n, cs := |vectors| - 1, VectorChunks(0, vectors);
      assert cs[..n] == VectorChunks(0, vectors[..n]);
      FirstOk(cs, n);
      VectorsRoom(vectors[..n], nTstep);
      ChunkEnd(cs, n);
      assert cs[..n + 1] == cs;
    }
  }

  lemma FirstOk(cs: seq<Chunk>, n: nat)
    requires ChunksOk(cs) && n <= |cs|
    ensures ChunksOk(cs[..n])
  {}

  lemma PartsOk(a: seq<Chunk>, b: seq<Chunk>)
    requires ChunksOk(a + b)
    ensures ChunksOk(a) && ChunksOk(b)
  {
    assert a == (a + b)[..|a|] && b == (a + b)[|a|..];
  }

  // The computed position of every vector is one char into its header, and loading it
  // gives its texts.
  lemma {:induction false} LoadWrittenText(keyword: seq<Key>, nTstep: nat, seqIndex: seq<int>,
                                           vectors: seq<seq<seq<byte>>>, lod: Lod, ind: nat)
    requires LodTextsOk(keyword, nTstep, vectors) && Increasing(seqIndex, 0, nTstep) && ind < |vectors|
    requires ChunksOk(LodChunks(keyword, nTstep, seqIndex, vectors))
    requires InspectText(EncodeChunks(LodChunks(keyword, nTstep, seqIndex, vectors)), keyword) == Ok(lod)
    ensures LoadText(EncodeChunks(LodChunks(keyword, nTstep, seqIndex, vectors)), lod, ind)
         == Ok(Texts(WithBreaks(COLUMNS, vectors[ind], 0)))
  {
    hide FWritable, ChunksOk, EncodeChunks, InspectText, SizeOnDiskFormatted, WithBreaks, FLoad, ParseHeader, PadRight;
    hide Trim, Clean, Line, AllFitting;
    var cs := LodChunks(keyword, nTstep, seqIndex, vectors);
    InspectWrittenText(keyword, nTstep, seqIndex, vectors);
    assert cs[2 + ind] == VectorChunk(ind, vectors[ind]);
    VectorStart(keyword, nTstep, seqIndex, vectors, ind);
    ChunkAt(cs, 2 + ind, 1, "V" + ToString(ind));
    VectorName(ind);
    TrimPadRight("V" + ToString(ind), 8);
  }

  lemma {:induction false} VectorStart(keyword: seq<Key>, nTstep: nat, seqIndex: seq<int>,
                                       vectors: seq<seq<seq<byte>>>, ind: nat)
    requires LodTextsOk(keyword, nTstep, vectors) && ind < |vectors|
    requires ChunksOk(LodChunks(keyword, nTstep, seqIndex, vectors))
    ensures var cs, size := LodChunks(keyword, nTstep, seqIndex, vectors), SizeOnDiskFormatted(COLUMNS, nTstep);
      |EncodeChunks(cs[..2 + ind])| == |EncodeChunks(cs[..2])| + size * ind + 31 * ind
  {
    hide FWritable, EncodeChunks, SizeOnDiskFormatted, AllFitting;
    var cs, init := LodChunks(keyword, nTstep, seqIndex, vectors), VectorChunks(0, vectors[..ind]);
    assert cs[..2 + ind] == cs[..2] + init;
    FirstOk(cs, 2 + ind);
    PartsOk(cs[..2], init);
    hide ChunksOk, LodChunks, VectorChunks, KeyChunk, StepChunk;
    EncodeConcat(cs[..2], init);
    VectorsRoom(vectors[..ind], nTstep);
    TimesIs(ind, 31 + SizeOnDiskFormatted(COLUMNS, nTstep));
  }
}
