// Making, inspecting and loading LODSMRY files with the writer and the stream.

module LodFile {
  import opened Bytes
  import opened Arith
  import opened Text
  import opened EclData
  import opened BinaryFormat
  import opened EclHeader
  import opened EclIndex
  import opened SummaryLod
  import Reader = EclFile
  import Writer = EclOutput

  // ------------------------------------------------------------------
  // Making

  /** The strings of the key check. */
  function PieceTexts(keyword: seq<Key>): (r: seq<seq<byte>>)
    ensures |r| == 3 * |keyword| && forall k :: 0 <= k < |r| ==> |r[k]| <= 8
  {
    seq(3 * |keyword|, k requires 0 <= k < 3 * |keyword| => Chunk(keyword[k / 3], k % 3))
  }

  /** The keys cut into pieces of eight chars, as make_lodsmry_file does. */
  method CutKeys(keyword: seq<Key>) returns (keycheck: seq<seq<byte>>)
    ensures keycheck == PieceTexts(keyword)
  {
    hide Chunk;
    keycheck := [];
    for n := 0 to |keyword|
      invariant keycheck == PieceTexts(keyword[..n])
    {
      var str1, str2, str3 := CutKey(keyword[n]);
      keycheck := keycheck + [str1, str2, str3];
      PiecesMore(keyword, n);
    }
    assert keyword[..|keyword|] == keyword;
  }

  method CutKey(key: Key) returns (str1: seq<byte>, str2: seq<byte>, str3: seq<byte>)
    ensures str1 == Chunk(key, 0) && str2 == Chunk(key, 1) && str3 == Chunk(key, 2)
  {
    str1, str2, str3 := key, [], [];
    if |key| > 24 {
      str1 := key[..24];
    }
    if |str1| > 8 {
      str2 := str1[8..];
      str1 := str1[..8];
    }
    if |str2| > 8 {
      str3 := str2[8..];
      str2 := str2[..8];
    }
  }

  lemma {:induction false} PiecesMore(keyword: seq<Key>, n: nat)
    requires n < |keyword|
    ensures PieceTexts(keyword[..n + 1])
         == PieceTexts(keyword[..n]) + [Chunk(keyword[n], 0), Chunk(keyword[n], 1), Chunk(keyword[n], 2)]
  {
    hide Chunk;
    var a, b := PieceTexts(keyword[..n + 1]), PieceTexts(keyword[..n]);
    forall k | 0 <= k < 3 * n ensures a[k] == b[k] {
      assert k / 3 < n;
    }
  }

  lemma {:induction false} PieceArr(keyword: seq<Key>)
    ensures Writer.Strings(PieceTexts(keyword)) == Pieces(keyword)
    ensures Writer.StringArr("KEYCHECK", PieceTexts(keyword)) == Arr("KEYCHECK", CHAR, 8, Pieces(keyword))
    ensures Writer.MaxLength(PieceTexts(keyword)) <= 8
  {
    hide Chunk;
    ShortStrings(PieceTexts(keyword));
    assert Writer.Strings(PieceTexts(keyword)) == Pieces(keyword);
  }

  lemma {:induction false} ShortStrings(data: seq<seq<byte>>)
    requires forall k :: 0 <= k < |data| ==> |data[k]| <= 8
    ensures Writer.MaxLength(data) <= 8
  {
    if data != [] {
      ShortStrings(data[..|data| - 1]);
      ShortStrings(data[1..]);
    }
  }

  /** make_lodsmry_file, once the vectors are loaded. */
  method WriteLodsmry(outFile: Writer.EclOutput, keyword: seq<Key>, nTstep: nat, seqIndex: seq<int>,
                         vectorData: seq<seq<Item>>)
    requires LodOk(keyword, nTstep, vectorData)
    modifies outFile.file
    ensures AllWritable(LodArrs(keyword, nTstep, seqIndex, vectorData))
    ensures outFile.file.content
         == old(outFile.file.content) + EncodeFile(outFile.ixStandard, LodArrs(keyword, nTstep, seqIndex, vectorData))
  {
    hide LodOk, EncodeArr, EncodeFile, Writer.Image, AllFit, CounterFits, Ulp, Pieces, Flags, VectorArrs, VectorArr,
      LodArrs;
    ghost var ix, before := outFile.ixStandard, outFile.file.content;
    LodArrsWritable(keyword, nTstep, seqIndex, vectorData);
    var keycheck := CutKeys(keyword);
    var isRstep: seq<Item> := [];
    for i := 0 to nTstep
      invariant |isRstep| == i && forall k :: 0 <= k < i ==> isRstep[k] == Bool(k in seqIndex)
    {
      isRstep := isRstep + [Bool(i in seqIndex)];
    }
    assert isRstep == Flags(nTstep, seqIndex);
    ghost var a, b := Arr("KEYCHECK", CHAR, 8, Pieces(keyword)), Arr("RSTEP", LOGI, 4, Flags(nTstep, seqIndex));
    PieceArr(keyword);
    PieceCount(keyword, nTstep, vectorData);
    Writer.ImageOfWritable(ix, a);
    Writer.ImageOfWritable(ix, b);
    FlagsFit(nTstep, seqIndex);
    var r0 := outFile.WriteStrings("KEYCHECK", keycheck);
    var r1 := outFile.Write("RSTEP", LOGI, isRstep);
    ghost var head := outFile.file.content;
    assert head == before + EncodeArr(ix, a) + EncodeArr(ix, b);
    WriteVectors(outFile, vectorData, nTstep);
    TwoArrs(ix, a, b, VectorArrs(0, vectorData));
    Assoc(before, EncodeArr(ix, a), EncodeArr(ix, b));
    Assoc(before, EncodeArr(ix, a) + EncodeArr(ix, b), EncodeFile(ix, VectorArrs(0, vectorData)));
    Assoc(EncodeArr(ix, a), EncodeArr(ix, b), EncodeFile(ix, VectorArrs(0, vectorData)));
    LodArrsAre(keyword, nTstep, seqIndex, vectorData);
  }

  lemma LodArrsAre(keyword: seq<Key>, nTstep: nat, seqIndex: seq<int>, vectors: seq<seq<Item>>)
    ensures LodArrs(keyword, nTstep, seqIndex, vectors)
         == [Arr("KEYCHECK", CHAR, 8, Pieces(keyword)), Arr("RSTEP", LOGI, 4, Flags(nTstep, seqIndex))] + VectorArrs(0, vectors)
  {}

  lemma PieceCount(keyword: seq<Key>, nTstep: nat, vectors: seq<seq<Item>>)
    requires LodOk(keyword, nTstep, vectors)
    ensures |PieceTexts(keyword)| < MAX_COUNT && 105 * 8 <= INT_MAX && nTstep < MAX_COUNT
    ensures |vectors| == |keyword| <= 10_000_000 && nTstep <= INT_MAX
    ensures forall i :: 0 <= i < |vectors| ==> |vectors[i]| == nTstep && AllFit(REAL, 4, vectors[i])
  {}

  lemma FlagsFit(n: nat, seqIndex: seq<int>)
    ensures AllFit(LOGI, 4, Flags(n, seqIndex)) && |Flags(n, seqIndex)| == n
  {}

  /** The loop of make_lodsmry_file over the vectors. */
  method WriteVectors(outFile: Writer.EclOutput, vectorData: seq<seq<Item>>, ghost nTstep: nat)
    requires |vectorData| <= 10_000_000 && nTstep <= INT_MAX
    requires forall i :: 0 <= i < |vectorData| ==> |vectorData[i]| == nTstep && AllFit(REAL, 4, vectorData[i])
    modifies outFile.file
    ensures AllWritable(VectorArrs(0, vectorData))
    ensures outFile.file.content
         == old(outFile.file.content) + EncodeFile(outFile.ixStandard, VectorArrs(0, vectorData))
  {
    hide EncodeArr, EncodeFile, Writer.Image, AllFit, CounterFits, Ulp, VectorArr, Decimal;
    ghost var ix, before, arrs := outFile.ixStandard, outFile.file.content, VectorArrs(0, vectorData);
    forall i | 0 <= i < |arrs| ensures Writable(arrs[i]) {
      VectorArrOk(i, vectorData[i]);
    }
    assert arrs[..0] == [];
    NoArrs(ix);
    assert before + [] == before;
    for n := 0 to |vectorData|
      invariant AllWritable(arrs[..n])
      invariant outFile.file.content == before + EncodeFile(ix, arrs[..n])
    {
      VectorName(n);
      VectorParts(n, vectorData[n]);
      var r := outFile.Write("V" + ToString(n), REAL, vectorData[n]);
      Writer.ImageOfWritable(ix, arrs[n]);
      assert arrs[..n + 1] == arrs[..n] + [arrs[n]];
      EncodeFileConcat(ix, arrs[..n], [arrs[n]]);
      OneArr(ix, arrs[n]);
      Assoc(before, EncodeFile(ix, arrs[..n]), EncodeArr(ix, arrs[n]));
    }
    assert arrs[..|arrs|] == arrs;
  }

  lemma VectorParts(n: nat, values: seq<Item>)
    ensures VectorArr(n, values) == Arr("V" + ToString(n), REAL, 4, values)
  {}

  lemma NoArrs(ix: bool)
    ensures EncodeFile(ix, []) == []
  {}

  lemma {:induction false} OneArr(ix: bool, a: Arr)
    requires Writable(a)
    ensures EncodeFile(ix, [a]) == EncodeArr(ix, a)
  {
    hide EncodeArr, AllFit, CounterFits, Ulp;
    assert [a][1..] == [];
    NoArrs(ix);
  }

  // ------------------------------------------------------------------
  // Inspecting and loading

  /** inspect_lodsmry. */
  method InspectLodsmry(fileH: Reader.InStream, keyword: seq<Key>) returns (r: Result<Lod>)
    modifies fileH
    ensures r == Inspect(fileH.content, keyword)
  {
    hide ReadHeader, ReadBlocks, KeysMatch, SetFlags, SizeOnDiskBinary;
    fileH.Seek(0);
    assert fileH.Rest() == fileH.content;
    hide Reader.InStream.RestAt;
    var h :- fileH.ReadBinaryHeader();
    if h.name != "KEYCHECK" || !h.typ.CHAR? {
      return Err(BadLodFile);
    }
    var keycheck :- fileH.ReadBinaryArray(h.size, CHAR, 8);
    if !AllStrings(keycheck) || h.size != 3 * |keyword| || |keycheck| != 3 * |keyword| {
      KeysNeedCount(keyword, keycheck);
      return Err(BadLodFile);
    }
    var match0 := CheckKeys(keyword, keycheck);
    if !match0 {
      return Err(BadLodFile);
    }
    var g :- fileH.ReadBinaryHeader();
    if g.name != "RSTEP   " || !g.typ.LOGI? {
      return Err(BadLodFile);
    }
    var rstep :- fileH.ReadBinaryArray(g.size, LOGI, 4);
    var seqIndex := FlagsSet(rstep);
    var size :- SizeOnDiskBinary(|rstep|, REAL, 4);
    r := Ok(Lod(seqIndex, fileH.pos, |rstep|, size));
  }

  lemma KeysNeedCount(keyword: seq<Key>, keycheck: seq<Item>)
    ensures AllStrings(keycheck) && KeysMatch(keyword, keycheck) ==> |keycheck| == 3 * |keyword|
  {}

  /** The loop over the keys. */
  method CheckKeys(keyword: seq<Key>, keycheck: seq<Item>) returns (ok: bool)
    requires AllStrings(keycheck) && |keycheck| == 3 * |keyword|
    ensures ok == KeysMatch(keyword, keycheck)
  {
    for n := 0 to |keyword|
      invariant forall k :: 0 <= k < n ==>
        Checked(keyword[k]) == keycheck[3 * k].s + keycheck[3 * k + 1].s + keycheck[3 * k + 2].s
    {
      var testStr := keycheck[3 * n].s + keycheck[3 * n + 1].s + keycheck[3 * n + 2].s;
      if |keyword[n]| > 24 {
        if keyword[n][..24] != testStr {
          return false;
        }
      } else {
        if keyword[n] != testStr {
          return false;
        }
      }
    }
    return true;
  }

  /** The loop over the report step flags. */
  method FlagsSet(rstep: seq<Item>) returns (seqIndex: seq<int>)
    ensures seqIndex == SetFlags(rstep, 0)
  {
    seqIndex := [];
    assert rstep[0..] == rstep;
    for m := 0 to |rstep|
      invariant SetFlags(rstep, 0) == seqIndex + SetFlags(rstep[m..], m)
    {
      assert rstep[m..][1..] == rstep[m + 1..];
      if rstep[m] == Bool(true) {
        assert seqIndex + ([m] + SetFlags(rstep[m + 1..], m + 1)) == seqIndex + [m] + SetFlags(rstep[m + 1..], m + 1);
        seqIndex := seqIndex + [m];
      } else {
        assert [] + SetFlags(rstep[m + 1..], m + 1) == SetFlags(rstep[m + 1..], m + 1);
      }
    }
    assert rstep[|rstep|..] == [];
    assert seqIndex + [] == seqIndex;
  }

  /** Load_from_lodsmry for one vector. */
  method LoadFromLodsmry(fileH: Reader.InStream, lod: Lod, ind: nat) returns (r: Result<seq<Item>>)
    modifies fileH
    ensures r == LoadVector(fileH.content, lod, ind)
  {
    hide ReadHeader, ReadBlocks, Trim, Decimal;
    var pos := lod.offset + lod.size * ind + 24 * ind;
    fileH.Seek(pos);
    assert fileH.Rest() == if pos <= |fileH.content| then fileH.content[pos..] else [];
    EmptyHeader();
    hide Reader.InStream.RestAt;
    var h :- fileH.ReadBinaryHeader();
    var arrName := Trim(h.name);
    var checkName := "V" + ToString(ind);
    if arrName != checkName {
      return Err(BadLodFile);
    }
    Dropped(fileH.content, pos, h.length);
    r := fileH.ReadBinaryArray(h.size, REAL, 4);
  }

  lemma EmptyHeader()
    ensures ReadHeader([]) == Err(ShortRead)
  {}
}
