// The LODSMRY file of a run that ESmry has read: what make_lodsmry_file saves, and
// what inspecting and loading it gives back.

module LodSummary {
  import opened Bytes
  import opened Arith
  import opened Text
  import opened EclData
  import opened BinaryFormat
  import opened EclIndex
  import opened SummaryFile
  import opened Summary
  import opened SummaryLod
  import LodFile
  import SummaryText
  import FormattedFile
  import FormattedText
  import Reader = EclFile
  import Writer = EclOutput

  // ------------------------------------------------------------------
  // What ESmry knows of a run

  // The report steps that the index of a data file finds are increasing and below the
  // number of time steps.
  lemma {:induction false} StepsIncreasing(list: seq<Place>, i: nat, step: nat)
    ensures
      var r := StepsFrom(list, i, step);
      r.Ok? ==> Increasing(r.value.last, step, step + |r.value.pos|)
    decreases |list| - i
  {
    var r := StepsFrom(list, i, step);
    if i < |list| && r.Ok? {
      var report := i + 2 >= |list| || list[i + 2].name == "SEQHDR";
      var j := if report then i + 3 else i + 2;
      StepsIncreasing(list, j, step + 1);
      hide StepsFrom;
      var more := StepsFrom(list, j, step + 1).value;
      assert r.value.last == (if report then [step] else []) + more.last;
    }
  }

  lemma {:induction false} IndexIncreasing(list: seq<Place>)
    ensures StepsOf(list).Ok? ==> Increasing(StepsOf(list).value.last, 0, |StepsOf(list).value.pos|)
  {
    hide StepsFrom, Increasing;
    if list != [] {
      StepsIncreasing(list, if list[0].name == "SEQHDR" then 1 else 0, 0);
    }
  }

  lemma {:induction false} ItemsFit(s: seq<byte>, n: nat)
    ensures ReadItems(s, n, REAL, 4).Ok? ==> AllFit(REAL, 4, ReadItems(s, n, REAL, 4).value)
  {
    if n > 0 && |s| >= 4 {
      ItemsFit(s[4..], n - 1);
    }
  }

  // What is read as floats is written as floats.
  lemma {:induction false} BlocksFit(s: seq<byte>, n: int)
    ensures ReadBlocks(s, n, REAL, 4).Ok? ==> AllFit(REAL, 4, ReadBlocks(s, n, REAL, 4).value.items)
    decreases if n > 0 then n else 0
  {
    hide ReadItems, ReadInt, Times;
    if n > 0 && ReadBlocks(s, n, REAL, 4).Ok? {
      IntIsThere(s);
      var num := TruncDiv(ReadInt(s).value, 4);
      ItemsFit(s[4..], num);
      var after := s[4..][Times(num, 4)..];
      IntIsThere(after);
      if num > 0 {
        BlocksFit(after[4..], n - num);
      }
    }
  }

  /** The values of all vectors. */
  ghost function Saved(smry: ESmry): (r: seq<seq<Item>>)
    requires Listed(smry.keyword, smry.keys) && smry.Intact()
    ensures |r| == |smry.keyword| && forall i :: 0 <= i < |r| ==> r[i] == smry.Values(i)
  {
    seq(|smry.keyword|, i requires 0 <= i < |smry.keyword| => smry.Values(i))
  }

  /** No more vectors than names of eight chars can number, nor time steps than an int
      can count. */
  predicate Numbered(smry: ESmry) {
    |smry.keyword| <= 10_000_000 && |smry.stepPos| <= INT_MAX
  }

  lemma {:induction false} ValuesFit(smry: ESmry, i: nat)
    requires Listed(smry.keyword, smry.keys) && smry.Intact() && i < |smry.keyword|
    ensures AllFit(REAL, 4, smry.Values(i))
  {
    hide ReadBlocks, AllFit;
    forall t | 0 <= t < |smry.stepPos| ensures Fits(REAL, 4, smry.Values(i)[t]) {
      assert Loads(smry.file.content, smry.stepPos[t], smry.params[t]);
      BlocksFit(smry.file.content[smry.stepPos[t]..], |smry.params[t]|);
      AnyFits(smry.params[t], smry.LastPlaces()[i]);
    }
    TheyFit(smry.Values(i));
  }

  lemma AnyFits(items: seq<Item>, k: nat)
    requires AllFit(REAL, 4, items) && k < |items|
    ensures Fits(REAL, 4, items[k])
  {}

  lemma TheyFit(items: seq<Item>)
    requires forall k :: 0 <= k < |items| ==> Fits(REAL, 4, items[k])
    ensures AllFit(REAL, 4, items)
  {}

  lemma {:induction false} SavedOk(smry: ESmry)
    requires Listed(smry.keyword, smry.keys) && smry.Intact() && Numbered(smry)
    ensures LodOk(smry.keyword, |smry.stepPos|, Saved(smry))
  {
    hide AllFit, Listed, ESmry.Intact;
    forall i | 0 <= i < |smry.keyword| ensures AllFit(REAL, 4, Saved(smry)[i]) {
      ValuesFit(smry, i);
    }
  }

  // ------------------------------------------------------------------
  // Making

  /** make_lodsmry_file on a single run: all vectors are loaded, and the keys, the report
      steps and the values are written, unless there is such a file. */
  method MakeLodsmryFile(smry: ESmry, seqIndex: seq<int>, fileExists: bool, outFile: Writer.EclOutput)
    returns (r: Result<bool>)
    requires smry.Valid() && smry.Intact() && DistinctKeys(smry.keys) && smry.Good() && Numbered(smry)
    modifies smry, smry.file, outFile.file
    ensures smry.Valid() && smry.Good() && r == Ok(!fileExists)
    ensures AllWritable(LodArrs(smry.keyword, |smry.stepPos|, seqIndex, Saved(smry)))
    ensures outFile.file.content
         == old(outFile.file.content)
         + if fileExists then []
           else EncodeFile(outFile.ixStandard, LodArrs(smry.keyword, |smry.stepPos|, seqIndex, Saved(smry)))
  {
    hide Listed, ESmry.Intact, LodOk, LodArrs, EncodeFile, AllWritable;
    SavedOk(smry);
    LodArrsWritable(smry.keyword, |smry.stepPos|, seqIndex, Saved(smry));
    if fileExists {
      return Ok(false);
    }
    var loaded := smry.LoadAll();
    assert smry.vectorData == Saved(smry);
    LodFile.WriteLodsmry(outFile, smry.keyword, |smry.stepPos|, seqIndex, smry.vectorData);
    r := Ok(true);
  }

  // ------------------------------------------------------------------
  // Coherence

  // The file made of a run is accepted for its keys if and only if every key is clean,
  // and then its report steps are those of the index and every vector has the values
  // that the scan and random access find.
  lemma {:induction false} CacheIff(smry: ESmry, ix: bool, list: seq<Place>)
    requires Listed(smry.keyword, smry.keys) && smry.Intact() && Numbered(smry)
    requires StepsOf(list).Ok? && StepsOf(list).value.pos == smry.stepPos
    ensures
      var seqIndex := StepsOf(list).value.last;
      var arrs := LodArrs(smry.keyword, |smry.stepPos|, seqIndex, Saved(smry));
      && AllWritable(arrs)
      && var f := EncodeFile(ix, arrs);
      var lod := Inspect(f, smry.keyword);
      && (lod.Ok? <==> forall n :: 0 <= n < |smry.keyword| ==> Clean(smry.keyword[n]))
      && (lod.Ok? ==>
            && lod.value.seqIndex == seqIndex && lod.value.nTstep == |smry.stepPos|
            && forall i :: 0 <= i < |smry.keyword| ==> LoadVector(f, lod.value, i) == Ok(smry.Values(i)))
  {
    hide Listed, ESmry.Intact, LodOk, LodArrs, EncodeFile, AllWritable, Inspect, LoadVector, StepsOf, Clean, Increasing;
    var n, seqIndex := |smry.stepPos|, StepsOf(list).value.last;
    SavedOk(smry);
    IndexIncreasing(list);
    InspectWritten(ix, smry.keyword, n, seqIndex, Saved(smry));
    var f := EncodeFile(ix, LodArrs(smry.keyword, n, seqIndex, Saved(smry)));
    var lod := Inspect(f, smry.keyword);
    if lod.Ok? {
      forall i | 0 <= i < |smry.keyword| ensures LoadVector(f, lod.value, i) == Ok(smry.Values(i)) {
        LoadWrittenVector(ix, smry.keyword, n, seqIndex, Saved(smry), lod.value, i);
      }
    }
  }

  // For a run as a simulator writes it: the data file is indexed, and the LODSMRY file
  // made of it gives back the last time step of every report, and of every vector the
  // parameter of every time step.
  lemma {:induction false} RunCacheIff(smry: ESmry, ix: bool, reports: seq<Report>)
    requires Listed(smry.keyword, smry.keys) && Numbered(smry)
    requires ReportsOk(reports, |smry.keys|) && reports != [] && smry.params == AllParams(AllSteps(reports))
    requires AllWritable(ReportArrs(reports)) && smry.file.content == EncodeFile(ix, ReportArrs(reports))
    requires var list := ListArrays(smry.file.content, 0);
      list.Ok? && StepsOf(list.value).Ok? && smry.stepPos == StepsOf(list.value).value.pos
    ensures smry.Intact() && |smry.stepPos| == |AllSteps(reports)|
    ensures AllWritable(LodArrs(smry.keyword, |smry.stepPos|, LastSteps(reports, 0), Saved(smry)))
    ensures
      var f := EncodeFile(ix, LodArrs(smry.keyword, |smry.stepPos|, LastSteps(reports, 0), Saved(smry)));
      var lod := Inspect(f, smry.keyword);
      && (lod.Ok? <==> forall n :: 0 <= n < |smry.keyword| ==> Clean(smry.keyword[n]))
      && (lod.Ok? ==>
            && lod.value.seqIndex == LastSteps(reports, 0)
            && forall i :: 0 <= i < |smry.keyword| ==> LoadVector(f, lod.value, i) == Ok(smry.Values(i)))
  {
    hide Listed, EncodeFile, AllWritable, Inspect, LoadVector, StepsOf, Clean, ListArrays, ReportArrs, LoadsAll, LodArrs;
    SummaryRoundTrip(ix, reports, |smry.keys|);
    ParamsOfRun(reports, |smry.keys|);
    LoadedSteps(smry.file.content, smry.stepPos, smry.params);
    hide ESmry.Intact, Saved;
    CacheIff(smry, ix, ListArrays(smry.file.content, 0).value);
  }

  lemma LoadedSteps(f: seq<byte>, pos: seq<nat>, params: seq<seq<Item>>)
    requires LoadsAll(f, pos, params)
    ensures |pos| == |params|
  {}

  lemma {:induction false} ParamsOfRun(reports: seq<Report>, n: nat)
    requires ReportsOk(reports, n)
    ensures forall t :: 0 <= t < |AllSteps(reports)| ==> |AllSteps(reports)[t].params| == n
  {
    if reports != [] {
      ParamsOfRun(reports[1..], n);
      assert StepsOk(reports[0].steps, n);
    }
  }

  // The same of a formatted file: the texts of the values come back.
  lemma {:induction false} TextCacheIff(keyword: seq<Key>, list: seq<Place>, vectors: seq<seq<seq<byte>>>)
    requires StepsOf(list).Ok? && SummaryText.LodTextsOk(keyword, |StepsOf(list).value.pos|, vectors)
    ensures
      var n, seqIndex := |StepsOf(list).value.pos|, StepsOf(list).value.last;
      var cs := SummaryText.LodChunks(keyword, n, seqIndex, vectors);
      && FormattedFile.ChunksOk(cs)
      && var f := FormattedFile.EncodeChunks(cs);
      var lod := SummaryText.InspectText(f, keyword);
      && (lod.Ok? <==> forall k :: 0 <= k < |keyword| ==> Clean(keyword[k]))
      && (lod.Ok? ==>
            && lod.value.seqIndex == seqIndex && lod.value.nTstep == n
            && forall i :: 0 <= i < |vectors| ==>
                 SummaryText.LoadText(f, lod.value, i)
                 == Ok(FormattedFile.Texts(FormattedText.WithBreaks(SummaryText.COLUMNS, vectors[i], 0))))
  {
    hide StepsOf, SummaryText.LodTextsOk, SummaryText.LodChunks, FormattedFile.EncodeChunks, FormattedFile.ChunksOk;
    hide SummaryText.InspectText, SummaryText.LoadText, FormattedText.WithBreaks, Clean, Increasing;
    var n, seqIndex := |StepsOf(list).value.pos|, StepsOf(list).value.last;
    IndexIncreasing(list);
    SummaryText.InspectWrittenText(keyword, n, seqIndex, vectors);
    var f := FormattedFile.EncodeChunks(SummaryText.LodChunks(keyword, n, seqIndex, vectors));
    var lod := SummaryText.InspectText(f, keyword);
    if lod.Ok? {
      forall i | 0 <= i < |vectors|
        ensures SummaryText.LoadText(f, lod.value, i)
             == Ok(FormattedFile.Texts(FormattedText.WithBreaks(SummaryText.COLUMNS, vectors[i], 0)))
      {
        SummaryText.LoadWrittenText(keyword, n, seqIndex, vectors, lod.value, i);
      }
    }
  }
}
