// A file of named arrays: what EclOutput makes of a list of arrays, the index
// EclFile builds over it by skipping data, and the data it loads by position.

module EclIndex {
  import opened Bytes
  import opened Arith
  import opened Text
  import opened EclData
  import opened BinaryFormat
  import opened EclHeader

  /** One array as it is handed to EclOutput. */
  datatype Arr = Arr(name: seq<byte>, typ: EclArrType, width: nat, items: seq<Item>)

  /** What the calls that produce an array guarantee about it. */
  predicate Shaped(a: Arr) {
    && AllFit(a.typ, a.width, a.items)
    && |a.items| < MAX_COUNT
    && a.width == ElementSize(a.typ, a.width)
    && (a.typ.C0NN? ==> 8 <= a.width && 105 * a.width <= INT_MAX)
  }

  /** Whether the counter of remaining bytes of a string array, an int, holds its size. */
  predicate CounterFits(a: Arr) {
    (a.typ.CHAR? || a.typ.C0NN?) ==> |a.items| * ElementBytes(a.typ, a.width) < TWO31
  }

  /** Arrays that come back from an unformatted file. */
  predicate Writable(a: Arr) {
    && Shaped(a)
    && |a.name| <= 8
    && (a.typ.C0NN? ==> a.width <= 999)
    && |a.items| % Ulp(|a.items|) == 0
    && CounterFits(a)
  }

  predicate AllWritable(arrs: seq<Arr>) {
    forall i :: 0 <= i < |arrs| ==> Writable(arrs[i])
  }

  function EncodeArr(ix: bool, a: Arr): seq<byte>
    requires Shaped(a) && |a.name| <= 8
  {
    HeaderBytes(a.name, |a.items|, a.typ, a.width) + DataBytes(a.typ, a.width, ix, a.items)
  }

  function EncodeFile(ix: bool, arrs: seq<Arr>): seq<byte>
    requires AllWritable(arrs)
  {
    if arrs == [] then [] else EncodeArr(ix, arrs[0]) + EncodeFile(ix, arrs[1..])
  }

  lemma {:induction false} EncodeFileConcat(ix: bool, a: seq<Arr>, b: seq<Arr>)
    requires AllWritable(a) && AllWritable(b)
    ensures EncodeFile(ix, a + b) == EncodeFile(ix, a) + EncodeFile(ix, b)
  {
    hide EncodeArr, AllFit, CounterFits;
    if a == [] {
      assert a + b == b;
    } else {
      EncodeFileConcat(ix, a[1..], b);
      assert (a + b)[1..] == a[1..] + b;
      Assoc(EncodeArr(ix, a[0]), EncodeFile(ix, a[1..]), EncodeFile(ix, b));
    }
  }

  // ------------------------------------------------------------------
  // The index

  /** What EclFile remembers about an array; pos is where its data starts. */
  datatype Entry = Entry(name: seq<byte>, typ: EclArrType, size: int, elementSize: int, pos: nat)

  /** The skip over an array's data: nothing unless its count is positive. */
  function SkipLength(h: Header): Result<nat> {
    if h.size > 0 then SizeOnDiskBinary(h.size, h.typ, h.elementSize) else Ok(0)
  }

  /** The entries of the rest s of a file, s starting at position pos. */
  function Index(s: seq<byte>, pos: nat): Result<seq<Entry>>
    decreases |s|
  {
    if |s| < 4 then Ok([])
    else
      var h :- ReadHeader(s);
      var skip :- SkipLength(h);
      var after := if h.length + skip <= |s| then s[h.length + skip..] else [];
      var more :- Index(after, pos + h.length + skip);
      Ok([Entry(Trim(h.name), h.typ, h.size, h.elementSize, pos + h.length)] + more)
  }

  function EntryOf(a: Arr, pos: nat): Entry {
    Entry(Trim(a.name), a.typ, |a.items|, a.width,
          pos + if |a.items| > INT_MAX then 2 * HEADER_SIZE else HEADER_SIZE)
  }

  /** Entries of arrays written one after the other from position pos on. */
  function EntriesOf(ix: bool, arrs: seq<Arr>, pos: nat): (es: seq<Entry>)
    requires AllWritable(arrs)
    ensures |es| == |arrs|
  {
    if arrs == [] then []
    else [EntryOf(arrs[0], pos)] + EntriesOf(ix, arrs[1..], pos + |EncodeArr(ix, arrs[0])|)
  }

  lemma {:induction false} ReadWrittenHeader(ix: bool, a: Arr, rest: seq<byte>)
    requires Writable(a)
    ensures var s := EncodeArr(ix, a) + rest;
      var h := ReadHeader(s);
      && h.Ok?
      && h.value.name == PadRight(a.name, 8) && h.value.size == |a.items| && h.value.typ == a.typ
      && h.value.elementSize == a.width
      && h.value.length == |HeaderBytes(a.name, |a.items|, a.typ, a.width)|
      && s[h.value.length..] == DataBytes(a.typ, a.width, ix, a.items) + rest
  {
    hide HeaderBytes, DataBytes, ReadHeader, Ulp, NearestDouble, PadRight;
    var data := DataBytes(a.typ, a.width, ix, a.items);
    Assoc(HeaderBytes(a.name, |a.items|, a.typ, a.width), data, rest);
    HeaderRoundTrip(a.name, |a.items|, a.typ, a.width, data + rest);
    DoubleIsExact(|a.items|);
  }

  // The scan steps over one array onto whatever follows it.
  lemma {:induction false} IndexStep(ix: bool, a: Arr, rest: seq<byte>, pos: nat)
    requires Writable(a)
    ensures
      var more := Index(rest, pos + |EncodeArr(ix, a)|);
      Index(EncodeArr(ix, a) + rest, pos) ==
        if more.Err? then Err(more.error) else Ok([EntryOf(a, pos)] + more.value)
  {
    hide EncodeArr, DataBytes, ReadHeader, SizeOnDiskBinary, PadRight, HeaderBytes, Ulp, AllFit, CounterFits;
    ReadWrittenHeader(ix, a, rest);
    SizeOnDiskIsDataLength(a.typ, a.width, ix, a.items);
    TrimPadRight(a.name, 8);
    ArrLength(ix, a);
    SplitAt(EncodeArr(ix, a), rest);
    EmptyData(ix, a);
  }

  // The scan lands on the next header after every array, so the index lists
  // exactly the arrays written, each with the position of its data.
  lemma {:induction false} IndexOfWritten(ix: bool, arrs: seq<Arr>, pos: nat)
    requires AllWritable(arrs)
    ensures Index(EncodeFile(ix, arrs), pos) == Ok(EntriesOf(ix, arrs, pos))
    decreases |arrs|
  {
    hide EncodeArr, ReadHeader, SkipLength, EntryOf, Ulp, AllFit, CounterFits;
    if arrs != [] {
      IndexStep(ix, arrs[0], EncodeFile(ix, arrs[1..]), pos);
      IndexOfWritten(ix, arrs[1..], pos + |EncodeArr(ix, arrs[0])|);
    }
  }

  lemma ArrLength(ix: bool, a: Arr)
    requires Writable(a)
    ensures |EncodeArr(ix, a)|
         == |HeaderBytes(a.name, |a.items|, a.typ, a.width)| + |DataBytes(a.typ, a.width, ix, a.items)|
    ensures |HeaderBytes(a.name, |a.items|, a.typ, a.width)| == EntryOf(a, 0).pos
    ensures HEADER_SIZE <= |EncodeArr(ix, a)|
  {}

  lemma {:induction false} EmptyData(ix: bool, a: Arr)
    requires Writable(a)
    ensures a.items == [] ==> DataBytes(a.typ, a.width, ix, a.items) == []
  {
    BlockQuotient(a.typ, a.width);
    EmptyBlocks(MaxBlock(a.typ, a.width), a.typ, a.width, ix);
  }

  // ------------------------------------------------------------------
  // Loading

  /** loadBinaryArray for one entry. */
  function LoadEntry(f: seq<byte>, e: Entry): Result<seq<Item>> {
    if e.typ.MESS? then Ok([])
    else if e.typ.C0NN? && e.elementSize <= 0 then Err(BadWidth)
    else if e.pos > |f| then (if e.size > 0 then Err(ShortRead) else Ok([]))
    else
      var loaded :- ReadBlocks(f[e.pos..], e.size, e.typ, if e.elementSize > 0 then e.elementSize else 0);
      Ok(loaded.items)
  }

  /** loadData(name): the first failure among the arrays of that name, if any. */
  function LoadNamed(f: seq<byte>, es: seq<Entry>, name: seq<byte>): Result<()> {
    if es == [] then Ok(())
    else if es[0].name == name then
      var _ :- LoadEntry(f, es[0]);
      LoadNamed(f, es[1..], name)
    else LoadNamed(f, es[1..], name)
  }

  // Loading the array whose image starts at a position returns its elements.
  lemma {:induction false} LoadWritten(f: seq<byte>, pre: seq<byte>, ix: bool, a: Arr, post: seq<byte>)
    requires Writable(a) && f == pre + (EncodeArr(ix, a) + post)
    ensures LoadEntry(f, EntryOf(a, |pre|)) == Ok(AllCanonical(a.items))
  {
    hide EncodeArr, DataBytes, HeaderBytes, ReadBlocks, AllCanonical, ReadHeader, PadRight;
    var e := EntryOf(a, |pre|);
    var s := EncodeArr(ix, a) + post;
    ReadWrittenHeader(ix, a, post);
    ArrLength(ix, a);
    SplitAt(pre, s);
    assert f[e.pos..] == f[|pre|..][e.pos - |pre|..];
    assert a.items != [] ==> Fits(a.typ, a.width, a.items[0]);
    if a.typ.MESS? {
      assert AllCanonical(a.items) == [];
    } else {
      BlockQuotient(a.typ, a.width);
      ReadWrittenBlocks(a.typ, a.width, ix, a.items, post);
    }
  }

  // Entry k stands where the images of the arrays before it end.
  lemma {:induction false} EntryAt(ix: bool, arrs: seq<Arr>, pos: nat, k: nat)
    requires AllWritable(arrs) && k < |arrs|
    ensures EntriesOf(ix, arrs, pos)[k] == EntryOf(arrs[k], pos + |EncodeFile(ix, arrs[..k])|)
    decreases k
  {
    hide EncodeArr, AllFit, CounterFits, Ulp, EntryOf;
    if k == 0 {
      assert arrs[..0] == [];
    } else {
      EntryAt(ix, arrs[1..], pos + |EncodeArr(ix, arrs[0])|, k - 1);
      assert arrs[..k][1..] == arrs[1..][..k - 1];
    }
  }

  lemma {:induction false} SplitFile(ix: bool, arrs: seq<Arr>, k: nat)
    requires AllWritable(arrs) && k < |arrs|
    ensures EncodeFile(ix, arrs)
         == EncodeFile(ix, arrs[..k]) + (EncodeArr(ix, arrs[k]) + EncodeFile(ix, arrs[k + 1..]))
  {
    hide EncodeArr, AllFit, CounterFits, Ulp;
    EncodeFileConcat(ix, arrs[..k], arrs[k..]);
    assert arrs[..k] + arrs[k..] == arrs;
    assert arrs[k..][1..] == arrs[k + 1..];
  }

  // The round trip over a whole file: array k of the index is array k written, under
  // its trimmed name and where its data starts, and loading it gives back its elements.
  lemma {:induction false} FileRoundTrip(ix: bool, arrs: seq<Arr>, k: nat)
    requires AllWritable(arrs) && k < |arrs|
    ensures var f := EncodeFile(ix, arrs);
      && Index(f, 0).Ok? && |Index(f, 0).value| == |arrs|
      && var e := Index(f, 0).value[k];
      && e.name == Trim(arrs[k].name) && e.typ == arrs[k].typ && e.size == |arrs[k].items|
      && e.elementSize == arrs[k].width && e == EntryOf(arrs[k], |EncodeFile(ix, arrs[..k])|)
      && LoadEntry(f, e) == Ok(AllCanonical(arrs[k].items))
  {
    hide EncodeArr, EncodeFile, Index, EntriesOf, AllFit, CounterFits, Ulp, LoadEntry, AllCanonical;
    IndexOfWritten(ix, arrs, 0);
    EntryAt(ix, arrs, 0, k);
    SplitFile(ix, arrs, k);
    LoadWritten(EncodeFile(ix, arrs), EncodeFile(ix, arrs[..k]), ix, arrs[k], EncodeFile(ix, arrs[k + 1..]));
  }

  // ------------------------------------------------------------------
  // String arrays beyond the counter

  /** The bytes left to write as writeBinaryCharArray counts them: in an int. */
  function CharCounter(n: nat, w: nat): int32 {
    Wrap32(Wrap32(n) * w)
  }

  lemma {:induction false} CharCounterExact(n: nat, w: nat)
    requires 8 <= w && n * w < TWO31
    ensures CharCounter(n, w) == n * w
  {
    AtLeastFactor(n, w);
  }

  lemma AtLeastFactor(n: nat, w: nat)
    requires w >= 1
    ensures n <= n * w
  {}

  lemma {:induction false} CharCounterBounded(n: nat, w: nat)
    requires 8 <= w
    ensures CharCounter(n, w) <= n * w
  {
    var k := Wrap32(n);
    if k >= 0 {
      FactorMonotone(k, n, w);
    } else {
      NegativeFactor(k, w);
    }
  }

  lemma FactorMonotone(k: nat, n: nat, w: nat)
    requires k <= n
    ensures 0 <= k * w <= n * w
  {}

  lemma NegativeFactor(k: int32, w: nat)
    requires k < 0 && 1 <= w
    ensures k * w < 0
  {}
}
