// The unified summary file: where its ministeps are, and where in a ministep's
// parameters a vector's value stands.

module SummaryFile {
  import opened Bytes
  import opened Arith
  import opened Text
  import opened EclData
  import opened BinaryFormat
  import opened EclHeader
  import opened EclIndex

  // ------------------------------------------------------------------
  // Random access

  /** Where LoadData(list) looks for a parameter, from the start of the data:
      two control words for each full block before it and one more. */
  function ElementOffset(paramPos: nat): nat {
    (2 * (paramPos / 1000) + 1) * 4 + paramPos * 4
  }

  lemma {:induction false} OffsetStep(k: nat)
    ensures k < 1000 ==> ElementOffset(k) == 4 + 4 * k
    ensures k >= 1000 ==> ElementOffset(k) == 4008 + ElementOffset(k - 1000)
  {
    if k >= 1000 {
      DivStep(k, 1000);
    }
  }

  // An element read in sequence stands at its multiple of the element size.
  lemma {:induction false} ItemAt(s: seq<byte>, n: nat, t: EclArrType, width: nat, k: nat)
    requires k < n && ReadItems(s, n, t, width).Ok?
    ensures Times(k, ElementBytes(t, width)) <= |s|
    ensures ReadItem(s[Times(k, ElementBytes(t, width))..], t, width) == Ok(ReadItems(s, n, t, width).value[k])
    decreases k
  {
    hide ItemValue, ElementBytes;
    var w := ElementBytes(t, width);
    TimesMonotone(k, n, w);
    if k == 0 {
      TimesNext(0, w);
      assert s[0..] == s;
    } else {
      ItemAt(s[w..], n - 1, t, width, k - 1);
      Dropped(s, w, Times(k - 1, w));
    }
  }

  // What the scan of n parameters reads as the k-th is what random access by
  // offset reads, on every file on which the scan succeeds.
  lemma {:induction false} RandomAccessIsScan(s: seq<byte>, n: nat, k: nat)
    requires k < n && ReadBlocks(s, n, REAL, 4).Ok?
    ensures |ReadBlocks(s, n, REAL, 4).value.items| == n
    ensures ElementOffset(k) + 4 <= |s|
    ensures ReadItem(s[ElementOffset(k)..], REAL, 4) == Ok(ReadBlocks(s, n, REAL, 4).value.items[k])
    decreases n
  {
    hide ItemValue, Times, ReadItems, ReadItem, ElementOffset, ReadInt;
    IntIsThere(s);
    var num := TruncDiv(ReadInt(s).value, 4);
    var items := ReadItems(s[4..], num, REAL, 4).value;
    var after := s[4..][Times(num, 4)..];
    IntIsThere(after);
    var more := ReadBlocks(after[4..], n - num, REAL, 4).value;
    assert ReadBlocks(s, n, REAL, 4).value.items == items + more.items;
    OffsetStep(k);
    TimesIs(num, 4);
    ScanCount(after[4..], n - num);
    if k < num {
      TimesIs(k, 4);
      ItemAt(s[4..], num, REAL, 4, k);
      ItemIsThere(s[4..][Times(k, 4)..]);
      Dropped(s, 4, 4 * k);
    } else {
      assert num == 1000;
      RandomAccessIsScan(after[4..], n - num, k - num);
      assert |s| == 4 + 4000 + 4 + |after[4..]|;
      Dropped(s, 4, 4000);
      Dropped(s, 4004, 4);
      Dropped(s, 4008, ElementOffset(k - num));
    }
  }

  lemma {:induction false} ScanCount(s: seq<byte>, n: nat)
    ensures ReadBlocks(s, n, REAL, 4).Ok? ==> |ReadBlocks(s, n, REAL, 4).value.items| == n
    decreases n
  {
    hide ReadItems, ReadInt, Times;
    if n > 0 && ReadBlocks(s, n, REAL, 4).Ok? {
      IntIsThere(s);
      var num := TruncDiv(ReadInt(s).value, 4);
      var after := s[4..][Times(num, 4)..];
      IntIsThere(after);
      ScanCount(after[4..], n - num);
    }
  }

  lemma IntIsThere(s: seq<byte>)
    ensures ReadInt(s).Ok? ==> |s| >= 4
  {}

  lemma ItemIsThere(s: seq<byte>)
    ensures ReadItem(s, REAL, 4).Ok? ==> |s| >= 4
  {}

  // ------------------------------------------------------------------
  // The arrays of the file

  /** An array of the summary file: its name and where its data starts. */
  datatype Place = Place(name: seq<byte>, pos: nat)

  const SEQHDR: seq<byte> := "SEQHDR  "
  const MINISTEP: seq<byte> := "MINISTEP"
  const PARAMS: seq<byte> := "PARAMS  "

  /** How far getListOfArrays skips for an array of this name and count. */
  function PlaceSkip(name: seq<byte>, num: int): Result<nat> {
    if name == SEQHDR || name == MINISTEP then (if num > 0 then SizeOnDiskBinary(num, INTE, 4) else Ok(0))
    else if name == PARAMS then (if num > 0 then SizeOnDiskBinary(num, REAL, 4) else Ok(0))
    else Err(UnknownArray)
  }

  // The three names that belong in a summary file, and no other.
  lemma PlaceSkipIs(name: seq<byte>, num: int)
    ensures PlaceSkip(name, num).Ok? || PlaceSkip(name, num) == Err(UnknownArray)
    ensures PlaceSkip(name, num).Ok? <==> name == "SEQHDR  " || name == "MINISTEP" || name == "PARAMS  "
    ensures PlaceSkip(name, num).Ok? ==> PlaceSkip(name, num).value == if num > 0 then 4 * num + 8 * ((num + 999) / 1000) else 0
  {
    RoomOfNumbers(num);
    hide SizeOnDiskBinary;
  }

  lemma RoomOfNumbers(n: int)
    ensures n > 0 ==> SizeOnDiskBinary(n, INTE, 4) == Ok(4 * n + 8 * ((n + 999) / 1000))
    ensures SizeOnDiskBinary(n, REAL, 4) == SizeOnDiskBinary(n, INTE, 4)
  {}

  /** getListOfArrays on the rest s of a file, which starts at position pos. */
  function ListArrays(s: seq<byte>, pos: nat): Result<seq<Place>>
    decreases |s|
  {
    if |s| < 16 then Err(ShortRead)
    else
      var num :- ReadInt(s[12..]);
      var skip :- PlaceSkip(s[4..12], num);
      var here := Place(Trim(s[4..12]), pos + 24);
      if |s| <= 24 + skip then Ok([here])
      else
        var more :- ListArrays(s[24 + skip..], pos + 24 + skip);
        Ok([here] + more)
  }

  /** An array that belongs in a summary file. */
  predicate SummaryArr(a: Arr) {
    && Writable(a) && |a.items| <= INT_MAX
    && ((a.typ.INTE? && a.width == 4 && (a.name == "SEQHDR" || a.name == "MINISTEP"))
        || (a.typ.REAL? && a.width == 4 && a.name == "PARAMS"))
  }

  predicate AllSummary(arrs: seq<Arr>) {
    forall k :: 0 <= k < |arrs| ==> SummaryArr(arrs[k])
  }

  function Places(ix: bool, arrs: seq<Arr>, pos: nat): (ps: seq<Place>)
    requires AllSummary(arrs)
    ensures |ps| == |arrs|
  {
    if arrs == [] then []
    else [Place(arrs[0].name, pos + 24)] + Places(ix, arrs[1..], pos + |EncodeArr(ix, arrs[0])|)
  }

  lemma {:induction false} PlaceHeader(ix: bool, a: Arr, rest: seq<byte>)
    requires SummaryArr(a)
    ensures var s := EncodeArr(ix, a) + rest;
      && |s| >= 24 && ReadInt(s[12..]) == Ok(|a.items|)
      && s[4..12] == PadRight(a.name, 8)
      && s[24..] == DataBytes(a.typ, a.width, ix, a.items) + rest
  {
    hide ReadInt, BigEndian, DataBytes, Record, AllFit, CounterFits, Ulp;
    var data := DataBytes(a.typ, a.width, ix, a.items);
    var h := Record(PadRight(a.name, 8), |a.items|, TypeTag(a.typ, a.width));
    assert HeaderBytes(a.name, |a.items|, a.typ, a.width) == [] + h == h;
    Assoc(h, data, rest);
    ReadWrittenRecord(PadRight(a.name, 8), |a.items|, TypeTag(a.typ, a.width), data + rest);
    RecordInts(h + (data + rest));
  }

  lemma RecordInts(s: seq<byte>)
    ensures ReadRecord(s).Ok? ==>
      |s| >= 24 && ReadInt(s[12..]) == Ok(ReadRecord(s).value.size) && s[4..12] == ReadRecord(s).value.name
  {}

  lemma {:induction false} PaddedNames(a: Arr)
    requires SummaryArr(a)
    ensures Trim(PadRight(a.name, 8)) == a.name
    ensures PlaceSkip(PadRight(a.name, 8), |a.items|)
      == if |a.items| > 0 then SizeOnDiskBinary(|a.items|, a.typ, a.width) else Ok(0)
  {
    hide SizeOnDiskBinary, Writable;
    TrimPadRight(a.name, 8);
    TrimIsUnique(a.name, a.name);
    assert a.name == "SEQHDR" ==> PadRight(a.name, 8) == SEQHDR;
    assert a.name == MINISTEP ==> PadRight(a.name, 8) == MINISTEP;
    assert a.name == "PARAMS" ==> PadRight(a.name, 8) == PARAMS;
  }

  lemma {:induction false} PlaceStep(ix: bool, a: Arr, rest: seq<byte>, pos: nat)
    requires SummaryArr(a)
    ensures |EncodeArr(ix, a)| >= 24
    ensures rest == [] ==> ListArrays(EncodeArr(ix, a) + rest, pos) == Ok([Place(a.name, pos + 24)])
    ensures rest != [] ==>
      ListArrays(EncodeArr(ix, a) + rest, pos) == (var more := ListArrays(rest, pos + |EncodeArr(ix, a)|);
        if more.Err? then Err(more.error) else Ok([Place(a.name, pos + 24)] + more.value))
  {
    hide EncodeArr, DataBytes, SizeOnDiskBinary, PadRight, PlaceSkip, ReadInt;
    PlaceHeader(ix, a, rest);
    PaddedNames(a);
    SizeOnDiskIsDataLength(a.typ, a.width, ix, a.items);
    EmptyData(ix, a);
    PlaceHeader(ix, a, []);
    assert EncodeArr(ix, a) + [] == EncodeArr(ix, a);
    SplitAt(EncodeArr(ix, a), rest);
  }

  // getListOfArrays lists the arrays of a written file at the positions of their data.
  lemma {:induction false} ListOfWritten(ix: bool, arrs: seq<Arr>, pos: nat)
    requires AllSummary(arrs) && arrs != []
    ensures AllWritable(arrs) && ListArrays(EncodeFile(ix, arrs), pos) == Ok(Places(ix, arrs, pos))
    decreases |arrs|
  {
    hide EncodeArr, ListArrays, AllFit, CounterFits, Ulp;
    assert SummaryArr(arrs[0]);
    PlaceStep(ix, arrs[0], EncodeFile(ix, arrs[1..]), pos);
    if |arrs| > 1 {
      ListOfWritten(ix, arrs[1..], pos + |EncodeArr(ix, arrs[0])|);
      assert SummaryArr(arrs[1]);
      PlaceStep(ix, arrs[1], EncodeFile(ix, arrs[2..]), 0);
      assert arrs[1..][1..] == arrs[2..];
    } else {
      assert arrs[1..] == [];
      assert Places(ix, arrs[1..], pos + |EncodeArr(ix, arrs[0])|) == [];
      assert EncodeFile(ix, arrs[1..]) == [];
      assert Places(ix, arrs, pos) == [Place(arrs[0].name, pos + 24)];
    }
  }

  // ------------------------------------------------------------------
  // Ministeps

  /** Where the parameters of each ministep are, and the last ministep of each report step. */
  datatype Steps = Steps(pos: seq<nat>, last: seq<int>)

  /** The loop of the constructor of ESmry from array i and ministep `step` on. A
      file that ends in MINISTEP makes it look past the end of the list. */
  function StepsFrom(list: seq<Place>, i: nat, step: nat): Result<Steps>
    decreases |list| - i
  {
    if i >= |list| then Ok(Steps([], []))
    else if list[i].name != MINISTEP then Err(NotMinistep)
    else if i + 1 >= |list| then Err(OutOfRange)
    else if list[i + 1].name != "PARAMS" then Err(NotMinistep)
    else
      var report := i + 2 >= |list| || list[i + 2].name == "SEQHDR";
      var more :- StepsFrom(list, if report then i + 3 else i + 2, step + 1);
      Ok(Steps([list[i + 1].pos] + more.pos, (if report then [step] else []) + more.last))
  }

  /** The whole index of a summary data file. */
  function StepsOf(list: seq<Place>): Result<Steps> {
    if list == [] then Err(OutOfRange)
    else StepsFrom(list, if list[0].name == "SEQHDR" then 1 else 0, 0)
  }

  /** A ministep: its number and its parameters, the native bytes of floats. */
  datatype Ministep = Ministep(number: int32, params: seq<Item>)

  /** A report step: its SEQHDR value and its ministeps. */
  datatype Report = Report(header: int32, steps: seq<Ministep>)

  predicate StepOk(m: Ministep, n: nat) {
    |m.params| == n <= INT_MAX && AllFit(REAL, 4, m.params)
  }

  predicate StepsOk(steps: seq<Ministep>, n: nat) {
    forall k :: 0 <= k < |steps| ==> StepOk(steps[k], n)
  }

  /** Reports as a simulator writes them: every one has a ministep. */
  predicate ReportsOk(reports: seq<Report>, n: nat) {
    forall k :: 0 <= k < |reports| ==> reports[k].steps != [] && StepsOk(reports[k].steps, n)
  }

  function StepArrs(steps: seq<Ministep>): seq<Arr> {
    if steps == [] then []
    else
      [Arr(MINISTEP, INTE, 4, [Int(steps[0].number)]), Arr("PARAMS", REAL, 4, steps[0].params)] + StepArrs(steps[1..])
  }

  function ReportArrs(reports: seq<Report>): seq<Arr> {
    if reports == [] then []
    else [Arr("SEQHDR", INTE, 4, [Int(reports[0].header)])] + StepArrs(reports[0].steps) + ReportArrs(reports[1..])
  }

  /** All ministeps in order. */
  function AllSteps(reports: seq<Report>): seq<Ministep> {
    if reports == [] then [] else reports[0].steps + AllSteps(reports[1..])
  }

  /** The index of the last ministep of each report, the first having index `step`. */
  function LastSteps(reports: seq<Report>, step: nat): seq<int> {
    if reports == [] then []
    else [step + |reports[0].steps| - 1] + LastSteps(reports[1..], step + |reports[0].steps|)
  }

  lemma StepArrsOk(m: Ministep, n: nat)
    requires StepOk(m, n)
    ensures SummaryArr(Arr(MINISTEP, INTE, 4, [Int(m.number)])) && SummaryArr(Arr("PARAMS", REAL, 4, m.params))
  {}

  lemma HeaderArrOk(header: int32)
    ensures SummaryArr(Arr("SEQHDR", INTE, 4, [Int(header)]))
  {}

  lemma {:induction false} StepsAreSummary(steps: seq<Ministep>, n: nat)
    requires StepsOk(steps, n)
    ensures AllSummary(StepArrs(steps))
  {
    hide SummaryArr, StepOk;
    if steps != [] {
      StepArrsOk(steps[0], n);
      StepsAreSummary(steps[1..], n);
    }
  }

  lemma {:induction false} ReportsAreSummary(reports: seq<Report>, n: nat)
    requires ReportsOk(reports, n)
    ensures AllSummary(ReportArrs(reports))
  {
    hide SummaryArr;
    if reports != [] {
      HeaderArrOk(reports[0].header);
      StepsAreSummary(reports[0].steps, n);
      ReportsAreSummary(reports[1..], n);
    }
  }

  /** The names of the places of some arrays, and the positions of the parameters. */
  function ParamPlaces(list: seq<Place>): seq<nat> {
    if list == [] then []
    else (if list[0].name == "PARAMS" then [list[0].pos] else []) + ParamPlaces(list[1..])
  }

  predicate Named(list: seq<Place>, arrs: seq<Arr>) {
    |list| == |arrs| && forall k :: 0 <= k < |list| ==> list[k].name == arrs[k].name
  }

  lemma {:induction false} PlacesNamed(ix: bool, arrs: seq<Arr>, pos: nat)
    requires AllSummary(arrs)
    ensures Named(Places(ix, arrs, pos), arrs)
    decreases |arrs|
  {
    hide EncodeArr, AllFit, CounterFits, Ulp;
    if arrs != [] {
      assert SummaryArr(arrs[0]);
      PlacesNamed(ix, arrs[1..], pos + |EncodeArr(ix, arrs[0])|);
    }
  }

  // The arrays of a ministep and of what comes after it.
  lemma {:induction false} ArrsShape(steps: seq<Ministep>, reports: seq<Report>)
    requires steps != []
    ensures var arrs := StepArrs(steps) + ReportArrs(reports);
      && |arrs| >= 2 && arrs[0].name == MINISTEP && arrs[1].name == "PARAMS"
      && arrs[2..] == StepArrs(steps[1..]) + ReportArrs(reports)
      && (|steps| > 1 ==> |arrs| > 2 && arrs[2].name == MINISTEP)
      && (|steps| == 1 && reports == [] ==> |arrs| == 2)
      && (|steps| == 1 && reports != [] ==>
          (|arrs| > 2 && arrs[2].name == "SEQHDR"
           && arrs[2..][1..] == StepArrs(reports[0].steps) + ReportArrs(reports[1..])))
  {
    var m := steps[0];
    var tail := StepArrs(steps[1..]);
    TwoThen(Arr(MINISTEP, INTE, 4, [Int(m.number)]), Arr("PARAMS", REAL, 4, m.params), tail, ReportArrs(reports));
    if |steps| == 1 {
      assert tail == [] && [] + ReportArrs(reports) == ReportArrs(reports);
      if reports != [] {
        OneThen(Arr("SEQHDR", INTE, 4, [Int(reports[0].header)]), StepArrs(reports[0].steps), ReportArrs(reports[1..]));
      }
    } else {
      assert |tail| > 0 && tail[0].name == MINISTEP;
    }
  }

  lemma TwoThen(a: Arr, b: Arr, s: seq<Arr>, t: seq<Arr>)
    ensures var all := ([a, b] + s) + t;
      && |all| >= 2 && all[0] == a && all[1] == b && all[2..] == s + t
      && (s != [] ==> |all| > 2 && all[2] == s[0])
      && (s == [] && t != [] ==> |all| > 2 && all[2] == t[0])
  {}

  lemma OneThen(a: Arr, s: seq<Arr>, t: seq<Arr>)
    ensures ([a] + s + t)[0] == a && ([a] + s + t)[1..] == s + t
  {}

  lemma {:induction false} NamedTail(list: seq<Place>, i: nat, arrs: seq<Arr>)
    requires i <= |list| && Named(list[i..], arrs) && arrs != []
    ensures i < |list| && list[i].name == arrs[0].name && Named(list[i + 1..], arrs[1..])
    ensures ParamPlaces(list[i..])
         == (if arrs[0].name == "PARAMS" then [list[i].pos] else []) + ParamPlaces(list[i + 1..])
  {
    var s := list[i..];
    assert s[0] == list[i] && s[1..] == list[i + 1..];
    forall k | 0 <= k < |s| - 1 ensures s[1..][k].name == arrs[1..][k].name {
      assert s[k + 1].name == arrs[k + 1].name;
    }
  }

  // One round of the loop at a ministep.
  lemma StepsRound(list: seq<Place>, i: nat, step: nat)
    requires i + 1 < |list| && list[i].name == MINISTEP && list[i + 1].name == "PARAMS"
    ensures
      var report := i + 2 >= |list| || list[i + 2].name == "SEQHDR";
      var more := StepsFrom(list, if report then i + 3 else i + 2, step + 1);
      more.Ok? ==>
        StepsFrom(list, i, step)
        == Ok(Steps([list[i + 1].pos] + more.value.pos, (if report then [step] else []) + more.value.last))
  {}

  // From a ministep on, the loop finds the rest of the report and all later ones.
  lemma {:induction false} StepsOfRest(list: seq<Place>, i: nat, step: nat, steps: seq<Ministep>,
                                       reports: seq<Report>, n: nat)
    requires i <= |list| && steps != [] && ReportsOk(reports, n)
    requires Named(list[i..], StepArrs(steps) + ReportArrs(reports))
    ensures StepsFrom(list, i, step)
      == Ok(Steps(ParamPlaces(list[i..]), [step + |steps| - 1] + LastSteps(reports, step + |steps|)))
    decreases |reports|, |steps|
  {
    hide StepsOk, StepArrs, ReportArrs, Named, ParamPlaces, StepsFrom;
    var arrs := StepArrs(steps) + ReportArrs(reports);
    ArrsShape(steps, reports);
    NamedTail(list, i, arrs);
    NamedTail(list, i + 1, arrs[1..]);
    assert arrs[1..][1..] == arrs[2..] && |MINISTEP| != |"SEQHDR"| && |MINISTEP| != |"PARAMS"|;
    assert ParamPlaces(list[i..]) == [list[i + 1].pos] + ParamPlaces(list[i + 2..]);
    StepsRound(list, i, step);
    if |steps| > 1 {
      NamedTail(list, i + 2, arrs[2..]);
      StepsOfRest(list, i + 2, step + 1, steps[1..], reports, n);
      assert forall s: seq<int> :: [] + s == s;
    } else if reports != [] {
      NamedTail(list, i + 2, arrs[2..]);
      StepsOfRest(list, i + 3, step + 1, reports[0].steps, reports[1..], n);
      assert [] + ParamPlaces(list[i + 3..]) == ParamPlaces(list[i + 3..]);
    } else {
      StepsEnd(list, i + 2, step);
    }
  }

  lemma StepsEnd(list: seq<Place>, i: nat, step: nat)
    requires i <= |list| && Named(list[i..], [])
    ensures i == |list| && ParamPlaces(list[i..]) == []
    ensures StepsFrom(list, i + 1, step + 1) == Ok(Steps([], []))
  {}

  // ------------------------------------------------------------------
  // The parameters at the places found

  /** The scan of the data at a position gives these parameters. */
  predicate Loads(f: seq<byte>, pos: nat, items: seq<Item>) {
    && pos <= |f|
    && var r := ReadBlocks(f[pos..], |items|, REAL, 4);
    r.Ok? && r.value.items == items
  }

  predicate LoadsAll(f: seq<byte>, pos: seq<nat>, params: seq<seq<Item>>) {
    |pos| == |params| && forall k :: 0 <= k < |pos| ==> Loads(f, pos[k], params[k])
  }

  function ParamItems(arrs: seq<Arr>): seq<seq<Item>> {
    if arrs == [] then []
    else (if arrs[0].name == "PARAMS" then [arrs[0].items] else []) + ParamItems(arrs[1..])
  }

  lemma {:induction false} CanonicalWords(items: seq<Item>)
    requires AllFit(REAL, 4, items)
    ensures AllCanonical(items) == items
  {
    forall k | 0 <= k < |items| ensures AllCanonical(items)[k] == items[k] {
      assert Fits(REAL, 4, items[k]);
    }
  }

  lemma {:induction false} ParamsLoad(ix: bool, f: seq<byte>, pre: seq<byte>, a: Arr, rest: seq<byte>)
    requires SummaryArr(a) && a.name == "PARAMS" && f == pre + (EncodeArr(ix, a) + rest)
    ensures Loads(f, |pre| + 24, a.items)
  {
    hide ReadBlocks, DataBytes, EncodeArr, AllCanonical;
    var s := EncodeArr(ix, a) + rest;
    PlaceHeader(ix, a, rest);
    SplitAt(pre, s);
    Dropped(f, |pre|, 24);
    ReadWrittenBlocks(REAL, 4, ix, a.items, rest);
    CanonicalWords(a.items);
  }

  lemma {:induction false} LoadsMore(f: seq<byte>, p: nat, items: seq<Item>, pos: seq<nat>, params: seq<seq<Item>>)
    requires Loads(f, p, items) && LoadsAll(f, pos, params)
    ensures LoadsAll(f, [p] + pos, [items] + params)
  {
    hide Loads;
  }

  lemma {:induction false} AllLoad(ix: bool, f: seq<byte>, pre: seq<byte>, arrs: seq<Arr>)
    requires AllSummary(arrs) && AllWritable(arrs) && f == pre + EncodeFile(ix, arrs)
    ensures LoadsAll(f, ParamPlaces(Places(ix, arrs, |pre|)), ParamItems(arrs))
    decreases |arrs|
  {
    hide SummaryArr, EncodeArr, Loads, AllFit, CounterFits, Ulp;
    if arrs != [] {
      var a := arrs[0];
      assert SummaryArr(a);
      var one, rest := EncodeArr(ix, a), EncodeFile(ix, arrs[1..]);
      Assoc(pre, one, rest);
      AllLoad(ix, f, pre + one, arrs[1..]);
      var here := Place(a.name, |pre| + 24);
      assert Places(ix, arrs, |pre|)[1..] == Places(ix, arrs[1..], |pre + one|);
      if a.name == "PARAMS" {
        ParamsLoad(ix, f, pre, a, rest);
        LoadsMore(f, |pre| + 24, a.items, ParamPlaces(Places(ix, arrs[1..], |pre + one|)), ParamItems(arrs[1..]));
      }
    }
  }

  /** The parameters of all ministeps. */
  function AllParams(steps: seq<Ministep>): (r: seq<seq<Item>>)
    ensures |r| == |steps| && forall k :: 0 <= k < |r| ==> r[k] == steps[k].params
  {
    seq(|steps|, i requires 0 <= i < |steps| => steps[i].params)
  }

  lemma {:induction false} ItemsConcat(a: seq<Arr>, b: seq<Arr>)
    ensures ParamItems(a + b) == ParamItems(a) + ParamItems(b)
  {
    if a == [] {
      assert a + b == b;
    } else {
      assert (a + b)[1..] == a[1..] + b;
      ItemsConcat(a[1..], b);
    }
  }

  lemma {:induction false} StepItems(steps: seq<Ministep>)
    ensures ParamItems(StepArrs(steps)) == AllParams(steps)
  {
    if steps != [] {
      StepItems(steps[1..]);
      var two := [Arr(MINISTEP, INTE, 4, [Int(steps[0].number)]), Arr("PARAMS", REAL, 4, steps[0].params)];
      ItemsConcat(two, StepArrs(steps[1..]));
      assert two[1..][1..] == [] && |MINISTEP| != |"PARAMS"|;
      assert ParamItems(two[1..]) == [steps[0].params] + ParamItems(two[1..][1..]);
      assert ParamItems(two) == [] + ParamItems(two[1..]);
      assert AllParams(steps) == [steps[0].params] + AllParams(steps[1..]);
    }
  }

  lemma NoParams(a: Arr)
    ensures a.name != "PARAMS" ==> ParamItems([a]) == []
  {
    assert [a][1..] == [];
  }

  lemma {:induction false} ReportItems(reports: seq<Report>)
    ensures ParamItems(ReportArrs(reports)) == AllParams(AllSteps(reports))
  {
    if reports != [] {
      hide ParamItems, StepArrs;
      var head := [Arr("SEQHDR", INTE, 4, [Int(reports[0].header)])];
      ReportItems(reports[1..]);
      StepItems(reports[0].steps);
      ItemsConcat(head + StepArrs(reports[0].steps), ReportArrs(reports[1..]));
      ItemsConcat(head, StepArrs(reports[0].steps));
      NoParams(head[0]);
      assert AllParams(AllSteps(reports)) == AllParams(reports[0].steps) + AllParams(AllSteps(reports[1..]));
    }
  }

  // The index of a written summary file: the parameters of every ministep, in
  // order, and the last ministep of every report step.
  lemma {:induction false} SummaryRoundTrip(ix: bool, reports: seq<Report>, n: nat)
    requires ReportsOk(reports, n) && reports != []
    ensures AllSummary(ReportArrs(reports)) && AllWritable(ReportArrs(reports))
    ensures
      var f := EncodeFile(ix, ReportArrs(reports));
      var list := ListArrays(f, 0);
      && list.Ok? && StepsOf(list.value).Ok?
      && LoadsAll(f, StepsOf(list.value).value.pos, AllParams(AllSteps(reports)))
      && StepsOf(list.value).value.last == LastSteps(reports, 0)
  {
    hide EncodeFile, ListArrays, LoadsAll, AllFit, CounterFits, Ulp, ParamPlaces, ParamItems, Places, StepArrs, Named;
    var arrs := ReportArrs(reports);
    ReportsAreSummary(reports, n);
    ListOfWritten(ix, arrs, 0);
    PlacesNamed(ix, arrs, 0);
    var list := Places(ix, arrs, 0);
    var r := reports[0];
    OneThen(Arr("SEQHDR", INTE, 4, [Int(r.header)]), StepArrs(r.steps), ReportArrs(reports[1..]));
    assert list[0..] == list;
    NamedTail(list, 0, arrs);
    StepsOfRest(list, 1, 0, r.steps, reports[1..], n);
    assert [] + ParamPlaces(list[1..]) == ParamPlaces(list[1..]);
    assert [] + EncodeFile(ix, arrs) == EncodeFile(ix, arrs);
    AllLoad(ix, EncodeFile(ix, arrs), [], arrs);
    ReportItems(reports);
  }
}
