// The LODSMRY cache: one array per vector behind a list of keys and of report
// steps, found again by computed positions.

module SummaryLod {
  import opened Bytes
  import opened Arith
  import opened Text
  import opened EclData
  import opened BinaryFormat
  import opened EclHeader
  import opened EclIndex

  type Key = seq<byte>

  // ------------------------------------------------------------------
  // Key check

  /** The three eight-char pieces of the first 24 chars of a key. */
  function Chunk(key: Key, k: nat): (c: seq<byte>)
    requires k < 3
    ensures |c| <= 8
  {
    if |key| <= 8 * k then [] else if |key| <= 8 * k + 8 then key[8 * k..] else key[8 * k..8 * k + 8]
  }

  /** What is checked of a key. */
  function Checked(key: Key): Key {
    if |key| > 24 then key[..24] else key
  }

  lemma ChunksAre(key: Key)
    ensures Chunk(key, 0) + Chunk(key, 1) + Chunk(key, 2) == Checked(key)
  {}

  /** No piece of the key ends in a blank. */
  predicate Clean(key: Key) {
    forall k :: 0 <= k < 3 ==> (var c := Chunk(key, k); c == [] || c[|c| - 1] != ' ')
  }

  lemma {:induction false} TrimChunk(c: seq<byte>)
    ensures Trim(c) == c <==> (c == [] || c[|c| - 1] != ' ')
  {
    if c == [] || c[|c| - 1] != ' ' {
      TrimIsUnique(c, c);
    }
  }

  // The pieces of a key come back without trailing blanks, so they make up the key
  // again if and only if none ends in a blank.
  lemma {:induction false} CheckedIff(key: Key)
    ensures Trim(Chunk(key, 0)) + Trim(Chunk(key, 1)) + Trim(Chunk(key, 2)) == Checked(key) <==> Clean(key)
  {
    ChunksAre(key);
    hide Chunk, Trim, Checked;
    TrimChunk(Chunk(key, 0));
    TrimChunk(Chunk(key, 1));
    TrimChunk(Chunk(key, 2));
    ShorterParts(Chunk(key, 0), Chunk(key, 1), Chunk(key, 2));
    CleanIs(key);
  }

  lemma {:induction false} CleanIs(key: Key)
    ensures Clean(key) <==>
      (Trim(Chunk(key, 0)) == Chunk(key, 0) && Trim(Chunk(key, 1)) == Chunk(key, 1) && Trim(Chunk(key, 2)) == Chunk(key, 2))
  {
    hide Chunk, Trim;
    TrimChunk(Chunk(key, 0));
    TrimChunk(Chunk(key, 1));
    TrimChunk(Chunk(key, 2));
  }

  lemma {:induction false} ShorterParts(a: seq<byte>, b: seq<byte>, c: seq<byte>)
    ensures Trim(a) + Trim(b) + Trim(c) == a + b + c <==> Trim(a) == a && Trim(b) == b && Trim(c) == c
  {
    var p, q, r := Trim(a), Trim(b), Trim(c);
    hide Trim;
    if p + q + r == a + b + c {
      assert |p + q + r| == |p| + |q| + |r| && |a + b + c| == |a| + |b| + |c|;
      assert p == a[..|p|] && q == b[..|q|] && r == c[..|r|];
    }
  }

  /** The pieces of all keys, one behind the other. */
  function Pieces(keyword: seq<Key>): (r: seq<Item>)
    ensures |r| == 3 * |keyword|
    ensures forall k :: 0 <= k < |r| ==> r[k].Str? && |r[k].s| <= 8
  {
    seq(3 * |keyword|, k requires 0 <= k < 3 * |keyword| => Str(Chunk(keyword[k / 3], k % 3)))
  }

  lemma PiecesAt(keyword: seq<Key>, n: nat)
    requires n < |keyword|
    ensures var r := Pieces(keyword);
      r[3 * n] == Str(Chunk(keyword[n], 0)) && r[3 * n + 1] == Str(Chunk(keyword[n], 1))
      && r[3 * n + 2] == Str(Chunk(keyword[n], 2))
  {}

  predicate AllStrings(items: seq<Item>) {
    forall k :: 0 <= k < |items| ==> items[k].Str?
  }

  /** The key check: three pieces for each key, and their text is what is checked. */
  predicate KeysMatch(keyword: seq<Key>, keycheck: seq<Item>)
    requires AllStrings(keycheck)
  {
    && |keycheck| == 3 * |keyword|
    && forall n :: 0 <= n < |keyword| ==>
      Checked(keyword[n]) == keycheck[3 * n].s + keycheck[3 * n + 1].s + keycheck[3 * n + 2].s
  }

  // The pieces written for some keys pass the check of those keys when they are
  // read back if and only if every key is clean.
  lemma {:induction false} KeysMatchIff(keyword: seq<Key>)
    ensures AllStrings(AllCanonical(Pieces(keyword)))
    ensures KeysMatch(keyword, AllCanonical(Pieces(keyword))) <==> forall n :: 0 <= n < |keyword| ==> Clean(keyword[n])
  {
    hide Clean, Checked, Chunk, Trim, Pieces, AllCanonical;
    var read := AllCanonical(Pieces(keyword));
    assert AllStrings(read);
    forall n | 0 <= n < |keyword|
      ensures Checked(keyword[n]) == read[3 * n].s + read[3 * n + 1].s + read[3 * n + 2].s <==> Clean(keyword[n])
    {
      PiecesAt(keyword, n);
      CheckedIff(keyword[n]);
    }
  }

  // A key whose eighth char is a blank.
  lemma {:induction false} BlankInKey()
    ensures !KeysMatch(["WOPR:OP 1"], AllCanonical(Pieces(["WOPR:OP 1"])))
  {
    hide KeysMatch, Pieces, AllCanonical;
    var key: Key := "WOPR:OP 1";
    KeysMatchIff([key]);
    assert Chunk(key, 0)[7] == ' ';
    assert [key][0] == key && !Clean(key);
  }

  // ------------------------------------------------------------------
  // The file

  function Flags(n: nat, seqIndex: seq<int>): (r: seq<Item>)
    ensures |r| == n && forall i :: 0 <= i < n ==> r[i] == Bool(i in seqIndex)
  {
    seq(n, i => Bool(i in seqIndex))
  }

  function VectorArr(n: nat, values: seq<Item>): Arr {
    Arr("V" + ToString(n), REAL, 4, values)
  }

  /** The arrays of the vectors from number n on. */
  function VectorArrs(n: nat, vectors: seq<seq<Item>>): (r: seq<Arr>)
    ensures |r| == |vectors| && forall i :: 0 <= i < |r| ==> r[i] == VectorArr(n + i, vectors[i])
  {
    seq(|vectors|, i requires 0 <= i < |vectors| => VectorArr(n + i, vectors[i]))
  }

  function LodArrs(keyword: seq<Key>, nTstep: nat, seqIndex: seq<int>, vectors: seq<seq<Item>>): seq<Arr> {
    [Arr("KEYCHECK", CHAR, 8, Pieces(keyword)), Arr("RSTEP", LOGI, 4, Flags(nTstep, seqIndex))] + VectorArrs(0, vectors)
  }

  /** Vectors of one value per time step, and no more of them than names of eight chars can number. */
  predicate LodOk(keyword: seq<Key>, nTstep: nat, vectors: seq<seq<Item>>) {
    && |vectors| == |keyword| <= 10_000_000 && nTstep <= INT_MAX
    && forall i :: 0 <= i < |vectors| ==> |vectors[i]| == nTstep && AllFit(REAL, 4, vectors[i])
  }

  lemma {:induction false} VectorArrOk(n: nat, values: seq<Item>)
    requires n < 10_000_000 && |values| <= INT_MAX && AllFit(REAL, 4, values)
    ensures Writable(VectorArr(n, values))
  {
    hide AllFit, Decimal;
    DecimalLength(n, 7);
    assert Pow10(7) == 10_000_000 by { PowersOfTen(); }
  }

  lemma {:induction false} PowersOfTen()
    ensures Pow10(7) == 10_000_000
  {
    assert Pow10(4) == 10_000;
  }

  lemma {:induction false} HeadArrsOk(pieces: seq<Item>, flags: seq<Item>)
    requires |pieces| <= 30_000_000 && AllFit(CHAR, 8, pieces) && |flags| <= INT_MAX && AllFit(LOGI, 4, flags)
    ensures Writable(Arr("KEYCHECK", CHAR, 8, pieces)) && Writable(Arr("RSTEP", LOGI, 4, flags))
  {
    hide AllFit;
  }

  lemma {:induction false} LodArrsWritable(keyword: seq<Key>, nTstep: nat, seqIndex: seq<int>, vectors: seq<seq<Item>>)
    requires LodOk(keyword, nTstep, vectors)
    ensures AllWritable(LodArrs(keyword, nTstep, seqIndex, vectors)) && AllWritable(VectorArrs(0, vectors))
    ensures Writable(Arr("KEYCHECK", CHAR, 8, Pieces(keyword))) && Writable(Arr("RSTEP", LOGI, 4, Flags(nTstep, seqIndex)))
  {
    var pieces := Pieces(keyword);
    HeadArrsOk(pieces, Flags(nTstep, seqIndex));
    hide Writable, VectorArr, Pieces;
    forall i | 0 <= i < |vectors| ensures Writable(VectorArr(i, vectors[i])) {
      VectorArrOk(i, vectors[i]);
    }
  }

  // ------------------------------------------------------------------
  // Reading it back

  /** What inspect_lodsmry learns: the report steps, where the vectors start, how
      many values they have and how long their data is. */
  datatype Lod = Lod(seqIndex: seq<int>, offset: nat, nTstep: nat, size: nat)

  /** The indices of the flags that are set, from index i on. */
  function SetFlags(flags: seq<Item>, i: nat): seq<int> {
    if flags == [] then []
    else (if flags[0] == Bool(true) then [i] else []) + SetFlags(flags[1..], i + 1)
  }

  lemma {:induction false} ReadBlocksShrinks(s: seq<byte>, count: int, t: EclArrType, width: nat)
    requires ElementBytes(t, width) > 0
    ensures ReadBlocks(s, count, t, width).Ok? ==> |ReadBlocks(s, count, t, width).value.rest| <= |s|
    decreases if count > 0 then count else 0
  {
    hide ReadItems, BigEndianValue, Times, ElementBytes;
    if count > 0 && ReadBlocks(s, count, t, width).Ok? {
      var num := TruncDiv(ReadInt(s).value, ElementBytes(t, width));
      var after := s[4..][Times(num, ElementBytes(t, width))..];
      if num > 0 {
        ReadBlocksShrinks(after[4..], count - num, t, width);
      }
    }
  }

  /** inspect_lodsmry on an unformatted file, for the vectors of some keys. */
  function Inspect(f: seq<byte>, keyword: seq<Key>): Result<Lod> {
    var h :- ReadHeader(f);
    if h.name != "KEYCHECK" || !h.typ.CHAR? then Err(BadLodFile)
    else
      var check :- ReadBlocks(f[h.length..], h.size, CHAR, 8);
      if !AllStrings(check.items) || h.size != 3 * |keyword| || !KeysMatch(keyword, check.items) then Err(BadLodFile)
      else
        ReadBlocksShrinks(f[h.length..], h.size, CHAR, 8);
        InspectSteps(check.rest, |f|)
  }

  /** Its second half, on what is left of the file behind the keys. */
  function InspectSteps(s: seq<byte>, total: nat): Result<Lod>
    requires |s| <= total
  {
    var g :- ReadHeader(s);
    if g.name != "RSTEP   " || !g.typ.LOGI? then Err(BadLodFile)
    else
      var rstep :- ReadBlocks(s[g.length..], g.size, LOGI, 4);
      var size :- SizeOnDiskBinary(|rstep.items|, REAL, 4);
      ReadBlocksShrinks(s[g.length..], g.size, LOGI, 4);
      Ok(Lod(SetFlags(rstep.items, 0), total - |rstep.rest|, |rstep.items|, size))
  }

  /** Load_from_lodsmry for one vector. */
  function LoadVector(f: seq<byte>, lod: Lod, ind: nat): Result<seq<Item>> {
    var pos := lod.offset + lod.size * ind + 24 * ind;
    if pos > |f| then Err(ShortRead)
    else
      var h :- ReadHeader(f[pos..]);
      if Trim(h.name) != "V" + ToString(ind) then Err(BadLodFile)
      else
        var l :- ReadBlocks(f[pos + h.length..], h.size, REAL, 4);
        Ok(l.items)
  }

  /** The report steps as they were: below n, increasing. */
  predicate Increasing(s: seq<int>, from: int, n: nat) {
    && (forall k :: 0 <= k < |s| ==> from <= s[k] < n)
    && forall a, b :: 0 <= a < b < |s| ==> s[a] < s[b]
  }

  lemma {:induction false} FlagsBack(n: nat, seqIndex: seq<int>, i: nat, left: seq<int>)
    requires i <= n && Increasing(left, i, n)
    requires forall k :: i <= k < n ==> (k in seqIndex <==> k in left)
    ensures SetFlags(Flags(n, seqIndex)[i..], i) == left
    decreases n - i
  {
    var flags := Flags(n, seqIndex);
    if i < n {
      assert flags[i..][1..] == flags[i + 1..] && flags[i..][0] == Bool(i in seqIndex);
      if i in left {
        assert left[0] == i;
        FlagsBack(n, seqIndex, i + 1, left[1..]);
        assert forall k :: 0 <= k < |left| - 1 ==> left[1..][k] in left;
        assert left == [left[0]] + left[1..];
      } else {
        assert forall k :: 0 <= k < |left| ==> left[k] in left;
        FlagsBack(n, seqIndex, i + 1, left);
      }
    } else {
      assert flags[i..] == [];
    }
  }

  // ------------------------------------------------------------------
  // Coherence

  // The header and the data of a written array, and what follows it.
  lemma {:induction false} ReadArr(ix: bool, a: Arr, rest: seq<byte>)
    requires Writable(a) && !a.typ.MESS? && ElementBytes(a.typ, a.width) > 0
    ensures var s := EncodeArr(ix, a) + rest;
      var h := ReadHeader(s);
      && h.Ok? && h.value.name == PadRight(a.name, 8) && h.value.size == |a.items| && h.value.typ == a.typ
      && h.value.length <= |s|
      && ReadBlocks(s[h.value.length..], |a.items|, a.typ, a.width) == Ok(Loaded(AllCanonical(a.items), rest))
  {
    hide EncodeArr, DataBytes, ReadHeader, ReadBlocks, AllCanonical, HeaderBytes, Ulp, CounterFits;
    ReadWrittenHeader(ix, a, rest);
    ReadWrittenBlocks(a.typ, a.width, ix, a.items, rest);
  }

  lemma PlainCanonical(items: seq<Item>)
    requires forall k :: 0 <= k < |items| ==> !items[k].Str?
    ensures AllCanonical(items) == items
  {}

  // The key check of a file made for some keys and vectors succeeds if and only if
  // the keys are clean, and then the report steps and the place of the vectors come back.
  lemma {:induction false} InspectWritten(ix: bool, keyword: seq<Key>, nTstep: nat, seqIndex: seq<int>,
                                          vectors: seq<seq<Item>>)
    requires LodOk(keyword, nTstep, vectors) && Increasing(seqIndex, 0, nTstep)
    ensures AllWritable(LodArrs(keyword, nTstep, seqIndex, vectors)) && AllWritable(VectorArrs(0, vectors))
    ensures
      var f := EncodeFile(ix, LodArrs(keyword, nTstep, seqIndex, vectors));
      var tail := EncodeFile(ix, VectorArrs(0, vectors));
      var size := SizeOnDiskBinary(nTstep, REAL, 4);
      && |tail| <= |f| && f[|f| - |tail|..] == tail && size.Ok?
      && Inspect(f, keyword)
         == if forall n :: 0 <= n < |keyword| ==> Clean(keyword[n])
            then Ok(Lod(seqIndex, |f| - |tail|, nTstep, size.value))
            else Err(BadLodFile)
  {
    hide EncodeArr, ReadHeader, ReadBlocks, AllCanonical, KeysMatch, Clean, Pieces, Flags, SetFlags, SizeOnDiskBinary,
      AllFit, CounterFits, Ulp, PadRight, LodOk, VectorArrs;
    LodArrsWritable(keyword, nTstep, seqIndex, vectors);
    var a, b := Arr("KEYCHECK", CHAR, 8, Pieces(keyword)), Arr("RSTEP", LOGI, 4, Flags(nTstep, seqIndex));
    var tail := EncodeFile(ix, VectorArrs(0, vectors));
    TwoArrs(ix, a, b, VectorArrs(0, vectors));
    var f := EncodeArr(ix, a) + (EncodeArr(ix, b) + tail);
    ReadArr(ix, a, EncodeArr(ix, b) + tail);
    ReadArr(ix, b, tail);
    KeysMatchIff(keyword);
    PlainCanonical(Flags(nTstep, seqIndex));
    FlagsBack(nTstep, seqIndex, 0, seqIndex);
    assert Flags(nTstep, seqIndex)[0..] == Flags(nTstep, seqIndex);
    LodNames();
    RealSize(nTstep);
    assert f[|f| - |tail|..] == tail;
  }

  lemma LodNames()
    ensures PadRight("KEYCHECK", 8) == "KEYCHECK" && PadRight("RSTEP", 8) == "RSTEP   "
  {}

  lemma {:induction false} RealSize(n: nat)
    ensures SizeOnDiskBinary(n, REAL, 4).Ok?
  {
    var items: seq<Item> := seq(n, _ => Word([NUL, NUL, NUL, NUL]));
    SizeOnDiskIsDataLength(REAL, 4, false, items);
  }

  lemma {:induction false} TwoArrs(ix: bool, a: Arr, b: Arr, rest: seq<Arr>)
    requires Writable(a) && Writable(b) && AllWritable(rest)
    ensures AllWritable([a, b] + rest)
    ensures EncodeFile(ix, [a, b] + rest) == EncodeArr(ix, a) + (EncodeArr(ix, b) + EncodeFile(ix, rest))
  {
    hide EncodeArr, Writable;
    var all := [a, b] + rest;
    assert all[0] == a && all[1..] == [b] + rest;
    assert all[1..][0] == b && all[1..][1..] == rest;
    assert forall i :: 0 <= i < |all| ==> Writable(all[i]);
  }

  // All vectors take the same room, which is what the position formula counts.
  lemma {:induction false} VectorsLength(ix: bool, n: nat, vectors: seq<seq<Item>>, nTstep: nat)
    requires nTstep <= INT_MAX && n + |vectors| <= 10_000_000
    requires forall i :: 0 <= i < |vectors| ==> |vectors[i]| == nTstep && AllFit(REAL, 4, vectors[i])
    ensures AllWritable(VectorArrs(n, vectors)) && SizeOnDiskBinary(nTstep, REAL, 4).Ok?
    ensures |EncodeFile(ix, VectorArrs(n, vectors))| == Times(|vectors|, 24 + SizeOnDiskBinary(nTstep, REAL, 4).value)
    decreases |vectors|
  {
    hide EncodeArr, SizeOnDiskBinary, VectorArr, AllFit, Times;
    var size := 24 + (RealSize(nTstep); SizeOnDiskBinary(nTstep, REAL, 4).value);
    var arrs := VectorArrs(n, vectors);
    forall i | 0 <= i < |arrs| ensures Writable(arrs[i]) {
      VectorArrOk(n + i, vectors[i]);
    }
    TimesNext(if vectors == [] then 0 else |vectors| - 1, size);
    if vectors != [] {
      VectorLength(ix, n, vectors[0], nTstep);
      VectorsLength(ix, n + 1, vectors[1..], nTstep);
      assert arrs[1..] == VectorArrs(n + 1, vectors[1..]);
    }
  }

  lemma {:induction false} VectorLength(ix: bool, n: nat, values: seq<Item>, nTstep: nat)
    requires n < 10_000_000 && |values| == nTstep <= INT_MAX && AllFit(REAL, 4, values)
    ensures Writable(VectorArr(n, values)) && SizeOnDiskBinary(nTstep, REAL, 4).Ok?
    ensures |EncodeArr(ix, VectorArr(n, values))| == 24 + SizeOnDiskBinary(nTstep, REAL, 4).value
  {
    hide EncodeArr, DataBytes, SizeOnDiskBinary, HeaderBytes, Writable, AllFit;
    var a := VectorArr(n, values);
    VectorArrOk(n, values);
    ArrLength(ix, a);
    SizeOnDiskIsDataLength(REAL, 4, ix, values);
  }

  // The computed position of every vector is that of its header, and loading it
  // gives its values.
  lemma {:induction false} LoadWrittenVector(ix: bool, keyword: seq<Key>, nTstep: nat, seqIndex: seq<int>,
                                             vectors: seq<seq<Item>>, lod: Lod, ind: nat)
    requires LodOk(keyword, nTstep, vectors) && Increasing(seqIndex, 0, nTstep) && ind < |vectors|
    requires AllWritable(LodArrs(keyword, nTstep, seqIndex, vectors))
    requires Inspect(EncodeFile(ix, LodArrs(keyword, nTstep, seqIndex, vectors)), keyword) == Ok(lod)
    ensures LoadVector(EncodeFile(ix, LodArrs(keyword, nTstep, seqIndex, vectors)), lod, ind) == Ok(vectors[ind])
  {
    hide EncodeArr, EncodeFile, Inspect, ReadHeader, ReadBlocks, AllCanonical, SizeOnDiskBinary, CounterFits, Ulp,
      AllFit,
      PadRight, Trim, Clean, LodArrs, Times, Increasing;
    var f := EncodeFile(ix, LodArrs(keyword, nTstep, seqIndex, vectors));
    var arrs := VectorArrs(0, vectors);
    InspectWritten(ix, keyword, nTstep, seqIndex, vectors);
    var tail := EncodeFile(ix, arrs);
    SplitFile(ix, arrs, ind);
    assert arrs[..ind] == VectorArrs(0, vectors[..ind]);
    VectorsLength(ix, 0, vectors[..ind], nTstep);
    VectorPos(ind, lod.size);
    var before, rest := EncodeFile(ix, arrs[..ind]), EncodeFile(ix, arrs[ind + 1..]);
    var a := arrs[ind];
    var pos := lod.offset + lod.size * ind + 24 * ind;
    assert |before| == lod.size * ind + 24 * ind;
    SplitAt(before, EncodeArr(ix, a) + rest);
    Dropped(f, lod.offset, |before|);
    assert f[pos..] == EncodeArr(ix, a) + rest;
    assert Writable(a);
    ReadArr(ix, a, rest);
    var h := ReadHeader(f[pos..]).value;
    Dropped(f, pos, h.length);
    WordsPlain(vectors[ind]);
    TrimPadRight(a.name, 8) by { VectorName(ind); }
    VectorName(ind);
  }

  lemma {:induction false} WordsPlain(items: seq<Item>)
    requires AllFit(REAL, 4, items)
    ensures AllCanonical(items) == items
  {
    forall k | 0 <= k < |items| ensures !items[k].Str? {
      assert Fits(REAL, 4, items[k]);
    }
    PlainCanonical(items);
  }

  lemma {:induction false} VectorPos(ind: nat, size: nat)
    ensures Times(ind, 24 + size) == size * ind + 24 * ind
  {
    TimesIs(ind, 24 + size);
  }

  lemma {:induction false} VectorName(n: nat)
    requires n < 10_000_000
    ensures |"V" + ToString(n)| <= 8 && Trim("V" + ToString(n)) == "V" + ToString(n)
  {
    DecimalLength(n, 7);
    PowersOfTen();
    var s := "V" + ToString(n);
    assert s[|s| - 1] == Decimal(n)[|Decimal(n)| - 1];
    TrimIsUnique(s, s);
  }
}
