// ERst over an indexed file, and the Restart stream that reopens a unified
// restart file at a report step.

module Restart {
  import opened Bytes
  import opened Text
  import opened EclData
  import opened EclHeader
  import opened EclIndex
  import opened RestartFile
  import Reader = EclFile
  import Writer = EclOutput

  /** Of the first n marks, j is the last of step k, and the range ends where mark j + 1 is,
      or at the number of arrays. */
  ghost predicate RangeFrom(ms: seq<Mark>, n: nat, arrays: nat, k: int, range: (nat, nat), j: int) {
    && 0 <= j < n <= |ms| && ms[j].seqnum == k && (forall i :: j < i < n ==> ms[i].seqnum != k)
    && range == (ms[j].index, if j + 1 < |ms| then ms[j + 1].index else arrays)
  }

  /** Every step of the first n marks is given the arrays from its last SEQNUM array up to
      the next one, or to the last array. */
  ghost predicate Ranges(ms: seq<Mark>, n: nat, arrays: nat, ranges: map<int, (nat, nat)>) {
    forall k :: k in ranges ==> exists j :: RangeFrom(ms, n, arrays, k, ranges[k], j)
  }

  lemma NoRanges(ms: seq<Mark>, arrays: nat)
    ensures Ranges(ms, 0, arrays, map[])
  {}

  lemma {:induction false} RangesMore(ms: seq<Mark>, i: nat, arrays: nat, ranges: map<int, (nat, nat)>, range: (nat, nat))
    requires i < |ms| && Ranges(ms, i, arrays, ranges)
    requires range == (ms[i].index, if i + 1 < |ms| then ms[i + 1].index else arrays)
    ensures Ranges(ms, i + 1, arrays, ranges[ms[i].seqnum as int := range])
  {
    var after, n := ranges[ms[i].seqnum as int := range], i + 1;
    assert RangeFrom(ms, n, arrays, ms[i].seqnum, range, i);
    forall k | k in after && k != ms[i].seqnum as int ensures exists j :: RangeFrom(ms, n, arrays, k, after[k], j) {
      var j :| RangeFrom(ms, i, arrays, k, ranges[k], j);
      assert RangeFrom(ms, n, arrays, k, after[k], j);
    }
  }

  ghost predicate IsNames(es: seq<Entry>, i: nat) { i < |es| && es[i].name == "LGRNAMES" }

  /** Entry i is the last LGRNAMES array from entry lo on and before entry hi. */
  ghost predicate LastNames(es: seq<Entry>, lo: nat, hi: nat, i: nat) {
    lo <= i < hi <= |es| && IsNames(es, i) && forall j: nat :: i < j < hi ==> !IsNames(es, j)
  }

  /** The grids of a step that has the arrays from lo up to hi: those its last LGRNAMES
      array lists, or none. */
  ghost predicate GridsAre(f: seq<byte>, es: seq<Entry>, lo: nat, hi: nat, names: seq<Item>) {
    && lo <= hi <= |es|
    && (forall i: nat :: LastNames(es, lo, hi, i) ==> LoadEntry(f, es[i]) == Ok(names))
    && ((forall i: nat :: lo <= i < hi ==> !IsNames(es, i)) ==> names == [])
  }

  /** Where the arrays of a step end: at the next SEQNUM array, or after n arrays. */
  ghost function End(ms: seq<Mark>, k: nat, n: nat): nat {
    if k + 1 < |ms| then ms[k + 1].index else n
  }

  /** After n arrays every step has its grids. */
  ghost predicate AllGrids(f: seq<byte>, es: seq<Entry>, n: nat, ms: seq<Mark>, lgrs: seq<seq<Item>>) {
    |lgrs| == |ms| && n <= |es| && forall k: nat :: k < |ms| ==> GridsAre(f, es, ms[k].index, End(ms, k, n), lgrs[k])
  }

  // The arrays of a step go on with an array that is no LGRNAMES array, or that is one.
  lemma {:induction false} GridsMore(f: seq<byte>, es: seq<Entry>, lo: nat, n: nat, names: seq<Item>, more: seq<Item>)
    requires n < |es| && GridsAre(f, es, lo, n, names)
    requires if IsNames(es, n) then LoadEntry(f, es[n]) == Ok(more) else more == names
    ensures GridsAre(f, es, lo, n + 1, more)
  {
    hide LoadEntry, IsNames;
    forall i: nat | LastNames(es, lo, n + 1, i) ensures LoadEntry(f, es[i]) == Ok(more) {
      if i < n {
        assert !IsNames(es, n);
        assert LastNames(es, lo, n, i);
      }
    }
  }

  lemma {:induction false} AllGridsMore(f: seq<byte>, es: seq<Entry>, n: nat, ms: seq<Mark>, lgrs: seq<seq<Item>>,
                                       more: seq<seq<Item>>)
    requires n < |es| && AllGrids(f, es, n, ms, lgrs)
    requires |more| == |lgrs| && forall k :: 0 <= k < |lgrs| - 1 ==> more[k] == lgrs[k]
    requires ms != [] ==>
      var k := |ms| - 1;
      if IsNames(es, n) then LoadEntry(f, es[n]) == Ok(more[k]) else more[k] == lgrs[k]
    ensures AllGrids(f, es, n + 1, ms, more)
  {
    hide LoadEntry, GridsAre, IsNames;
    forall k: nat | k < |ms| ensures GridsAre(f, es, ms[k].index, End(ms, k, n + 1), more[k]) {
      assert GridsAre(f, es, ms[k].index, End(ms, k, n), lgrs[k]);
      if k == |ms| - 1 {
        GridsMore(f, es, ms[k].index, n, lgrs[k], more[k]);
      }
    }
  }

  // A SEQNUM array ends the arrays of the step before it.
  lemma {:induction false} AllGridsNext(f: seq<byte>, es: seq<Entry>, n: nat, ms: seq<Mark>, lgrs: seq<seq<Item>>, next: Mark)
    requires n < |es| && AllGrids(f, es, n, ms, lgrs) && !IsNames(es, n) && next.index == n
    ensures AllGrids(f, es, n + 1, ms + [next], lgrs + [[]])
  {
    NoGrids(f, es, n);
    hide LoadEntry, GridsAre, IsNames;
    GridsMore(f, es, n, n, [], []);
    forall k: nat | k < |ms + [next]|
      ensures GridsAre(f, es, (ms + [next])[k].index, End(ms + [next], k, n + 1), (lgrs + [[]])[k])
    {
      if k < |ms| {
        assert GridsAre(f, es, ms[k].index, End(ms, k, n), lgrs[k]);
      }
    }
  }

  lemma NoGrids(f: seq<byte>, es: seq<Entry>, n: nat)
    requires n <= |es|
    ensures GridsAre(f, es, n, n, [])
  {}

  ghost function PrependMarks(ms: seq<Mark>, more: Result<seq<Mark>>): Result<seq<Mark>> {
    if more.Err? then more else Ok(ms + more.value)
  }

  class ERst {
    const file: Reader.EclFile
    var seqnum: seq<int32>
    var lgrNames: seq<seq<Item>>
    var firstIndex: seq<nat>      // where the SEQNUM arrays are; a local of initUnified
    var arrIndexRange: map<int, (nat, nat)>
    ghost var marks: seq<Mark>

    ghost predicate Valid()
      reads this, file
    {
      && file.Valid() && file.Complete()
      && |seqnum| == |firstIndex| == |marks| == |lgrNames|
      && (forall i :: 0 <= i < |marks| ==> marks[i] == Mark(seqnum[i], firstIndex[i]) && firstIndex[i] < |file.arrayName|)
    }

    /** Every report step is mapped to the arrays from its last SEQNUM on. */
    ghost predicate Mapped()
      reads this
    {
      && (forall k :: k in arrIndexRange ==> LastIndex(marks, k) == Some(arrIndexRange[k].0))
      && (forall i :: 0 <= i < |marks| ==> marks[i].seqnum as int in arrIndexRange)
    }

    constructor (file: Reader.EclFile)
      requires file.Valid() && file.Complete()
      ensures this.file == file && Valid() && marks == [] && arrIndexRange == map[]
    {
      this.file := file;
      seqnum, firstIndex, lgrNames, arrIndexRange, marks := [], [], [], map[], [];
    }

    /** The first loop of initUnified: one SEQNUM or LGRNAMES array. */
    method VisitArray(i: nat, ghost es: seq<Entry>) returns (r: Result<()>)
      requires Valid() && i < |file.arrayName| && es == file.Entries()
      requires AllGrids(file.bytes, es, i, marks, lgrNames)
      modifies this, file`arrays, file`arrayLoaded
      ensures Valid() && arrIndexRange == old(arrIndexRange)
      ensures r.Ok? ==> AllGrids(file.bytes, es, i + 1, marks, lgrNames)
      ensures var goal := PrependMarks(old(marks), Marks(file.bytes, es, i, old(marks) != []));
              match r
              case Err(e) => goal == Err(e)
              case Ok(_) => goal == PrependMarks(marks, Marks(file.bytes, es, i + 1, marks != []))
    {
      hide LoadEntry, Reader.EclFile.Valid, Reader.EclFile.Complete, Reader.EclFile.Entries, AllGrids;
      StepMarksOf(file.bytes, es, i, marks);
      ghost var ms, lgrs := marks, lgrNames;
      if file.arrayName[i] == "SEQNUM" {
        var seqn :- file.GetImpl(i, INTE);
        var number :- FirstNumber(seqn);
        seqnum := seqnum + [number];
        firstIndex := firstIndex + [i];
        lgrNames := lgrNames + [[]];
        marks := marks + [Mark(number, i)];
        AllGridsNext(file.bytes, es, i, ms, lgrs, Mark(number, i));
      }
      if file.arrayName[i] == "LGRNAMES" {
        var names :- file.GetImpl(i, CHAR);
        if |seqnum| == 0 {
          return Err(OutOfRange);
        }
        lgrNames := lgrNames[|seqnum| - 1 := names];
      }
      if es[i].name != "SEQNUM" {
        assert IsNames(es, i) <==> file.arrayName[i] == "LGRNAMES";
        AllGridsMore(file.bytes, es, i, ms, lgrs, lgrNames);
      }
      r := Ok(());
    }

    method InitUnified() returns (r: Result<()>)
      requires Valid() && marks == [] && arrIndexRange == map[]
      requires HasSeqnum(file.Entries())
      modifies this, file`arrays, file`arrayLoaded
      ensures Valid()
      ensures match ReadMarks(file.bytes, file.Entries())
              case Err(e) => r == Err(e)
              case Ok(ms) => r == Ok(()) && marks == ms && Mapped() && Ranges(ms, |ms|, |file.arrayName|, arrIndexRange)
                             && AllGrids(file.bytes, file.Entries(), |file.arrayName|, ms, lgrNames)
    {
      hide LoadEntry, Reader.EclFile.Valid, Reader.EclFile.Complete, Reader.EclFile.Entries, Marks, LoadNamed, Ranges;
      ghost var es := file.Entries();
      var _ :- file.LoadData("SEQNUM");
      PrependNoMark(Marks(file.bytes, es, 0, false));
      for i := 0 to |file.arrayName|
        invariant Valid() && arrIndexRange == map[]
        invariant AllGrids(file.bytes, es, i, marks, lgrNames)
        invariant Marks(file.bytes, es, 0, false) == PrependMarks(marks, Marks(file.bytes, es, i, marks != []))
      {
        var _ :- VisitArray(i, es);
      }
      NoMoreMarks(file.bytes, es, marks);
      MapSteps();
      r := Ok(());
    }

    /** The second loop of initUnified: the range of arrays of every step. */
    method MapSteps()
      requires Valid() && arrIndexRange == map[]
      modifies `arrIndexRange
      ensures Valid() && Mapped()
      ensures Ranges(marks, |marks|, |file.arrayName|, arrIndexRange)
    {
      hide Reader.EclFile.Valid, Reader.EclFile.Complete, Ranges;
      assert marks[..0] == [];
      NoRanges(marks, |file.arrayName|);
      for i := 0 to |seqnum|
        invariant Valid()
        invariant forall k :: k in arrIndexRange ==> LastIndex(marks[..i], k) == Some(arrIndexRange[k].0)
        invariant Ranges(marks, i, |file.arrayName|, arrIndexRange)
        invariant forall j :: 0 <= j < i ==> marks[j].seqnum as int in arrIndexRange
      {
        var first := firstIndex[i];
        var second: nat;
        if i != |seqnum| - 1 {
          second := firstIndex[i + 1];
        } else {
          second := |file.arrayName|;
        }
        assert marks[..i + 1][..i] == marks[..i];
        RangesMore(marks, i, |file.arrayName|, arrIndexRange, (first, second));
        arrIndexRange := arrIndexRange[seqnum[i] as int := (first, second)];
      }
      assert marks[..|seqnum|] == marks;
    }

    /** std::map::lower_bound on the report steps. */
    method LowerBound(s: int) returns (r: Option<int>)
      requires Valid() && Mapped()
      ensures r == MinAtLeast(marks, s)
    {
      hide LastIndex, MinAtLeast, Reader.EclFile.Valid, Reader.EclFile.Complete;
      LowestKey(marks, s, arrIndexRange.Keys);
      if k :| k in arrIndexRange && k >= s && forall j :: j in arrIndexRange && j >= s ==> k <= j {
        r := Some(k);
      } else {
        r := None;
      }
    }

    method RestartStepWritePosition(s: int) returns (r: Option<nat>)
      requires Valid() && Mapped()
      ensures r == WritePosition(file.Entries(), marks, s)
    {
      hide LastIndex, MinAtLeast, Reader.EclFile.Complete;
      var key := LowerBound(s);
      if key.None? {
        return None;
      }
      KeyIsMark(marks, s);
      LastIndexWithin(marks, key.value, |file.arrayName|);
      var p := file.SeekPosition(arrIndexRange[key.value].0);
      r := Some(p);
    }
  }

  // The least key not below s is the least report step not below s.
  lemma {:induction false} LowestKey(ms: seq<Mark>, s: int, keys: set<int>)
    requires forall k :: k in keys ==> LastIndex(ms, k).Some?
    requires forall i :: 0 <= i < |ms| ==> ms[i].seqnum as int in keys
    ensures var least := MinAtLeast(ms, s);
      && (least.Some? ==> least.value in keys && least.value >= s && forall j :: j in keys && j >= s ==> least.value <= j)
      && (least.None? ==> forall j :: j in keys ==> j < s)
  {
    hide MinAtLeast, LastIndex;
    var least := MinAtLeast(ms, s);
    forall j | j in keys ensures exists i :: 0 <= i < |ms| && ms[i].seqnum == j {
      assert LastIndex(ms, j).Some?;
    }
  }

  lemma KeyIsMark(ms: seq<Mark>, s: int)
    ensures MinAtLeast(ms, s).Some? ==>
      exists i :: 0 <= i < |ms| && ms[i].seqnum == MinAtLeast(ms, s).value
  {}

  lemma {:induction false} LastIndexWithin(ms: seq<Mark>, k: int, n: nat)
    requires forall i :: 0 <= i < |ms| ==> ms[i].index < n
    ensures LastIndex(ms, k).Some? ==> LastIndex(ms, k).value < n
    decreases |ms|
  {
    if ms != [] { LastIndexWithin(ms[..|ms| - 1], k, n); }
  }

  lemma {:induction false} PrependNoMark(more: Result<seq<Mark>>)
    ensures PrependMarks([], more) == more
  {
    assert more.Ok? ==> [] + more.value == more.value;
  }

  lemma {:induction false} NoMoreMarks(f: seq<byte>, es: seq<Entry>, ms: seq<Mark>)
    ensures PrependMarks(ms, Marks(f, es, |es|, ms != [])) == Ok(ms)
  {
    assert ms + [] == ms;
  }

  // One round of the loop over the index, in terms of what is still to be visited.
  lemma {:induction false} StepMarksOf(f: seq<byte>, es: seq<Entry>, i: nat, ms: seq<Mark>)
    requires i < |es|
    ensures
      var goal := PrependMarks(ms, Marks(f, es, i, ms != []));
      if es[i].name == "SEQNUM" then
        if !es[i].typ.INTE? then goal == Err(WrongType)
        else
          match LoadEntry(f, es[i])
          case Err(e) => goal == Err(e)
          case Ok(items) =>
            match FirstNumber(items)
            case Err(e) => goal == Err(e)
            case Ok(n) => goal == PrependMarks(ms + [Mark(n, i)], Marks(f, es, i + 1, true))
      else if es[i].name == "LGRNAMES" then
        if !es[i].typ.CHAR? then goal == Err(WrongType)
        else
          match LoadEntry(f, es[i])
          case Err(e) => goal == Err(e)
          case Ok(_) => if ms == [] then goal == Err(OutOfRange) else goal == PrependMarks(ms, Marks(f, es, i + 1, true))
      else goal == PrependMarks(ms, Marks(f, es, i + 1, ms != []))
  {
    hide LoadEntry;
    if es[i].name == "SEQNUM" && es[i].typ.INTE? {
      var items := LoadEntry(f, es[i]);
      if items.Ok? && FirstNumber(items.value).Ok? {
        var more := Marks(f, es, i + 1, true);
        if more.Ok? {
          var m := Mark(FirstNumber(items.value).value, i);
          assert ms + ([m] + more.value) == ms + [m] + more.value;
        }
      }
    }
  }

  // ------------------------------------------------------------------

  /** The path of a restart file: nothing, or a file. */
  class Path {
    var present: bool
    const file: Writer.File

    constructor (file: Writer.File)
      ensures this.file == file && !present
    {
      this.file := file;
      present := false;
    }

    ghost function Content(): Option<seq<byte>>
      reads this, file
    {
      if present then Some(file.content) else None
    }
  }

  /** openNew: an empty file, whatever was there. */
  method OpenNew(path: Path) returns (stream: Writer.EclOutput)
    modifies path, path.file
    ensures path.Content() == Some([]) && fresh(stream) && stream.file == path.file && !stream.ixStandard
  {
    path.present := true;
    path.file.content := [];
    stream := new Writer.EclOutput(path.file, false);
  }

  /** openExisting: append, after cutting the file at the write position if there is one. */
  method OpenExisting(path: Path, writePos: Option<nat>) returns (stream: Writer.EclOutput)
    requires path.present
    modifies path.file
    ensures path.present && fresh(stream) && stream.file == path.file && !stream.ixStandard
    ensures var f := old(path.file.content);
      path.file.content == match writePos
                           case None => f
                           case Some(p) => if p <= |f| then f[..p] else f + Zeros(p - |f|)
  {
    stream := new Writer.EclOutput(path.file, false);
    if writePos.Some? {
      var p := writePos.value;
      var f := path.file.content;
      path.file.content := if p <= |f| then f[..p] else f + Zeros(p - |f|);
    }
  }

  /** openUnified. A file without SEQNUM is refused: its name carries no step number either. */
  method OpenUnified(path: Path, seqnum: int32) returns (r: Result<Writer.EclOutput>)
    modifies path, path.file
    ensures match Reopen(old(path.Content()), seqnum)
            case Err(e) => r == Err(e) && path.Content() == old(path.Content())
            case Ok(kept) =>
              && r.Ok? && fresh(r.value) && r.value.file == path.file && !r.value.ixStandard
              && path.Content() == Some(kept)
  {
    hide Index, ReadMarks, WritePosition, Reader.EclFile.Valid, Reader.EclFile.Complete, Reader.EclFile.Entries,
      HasSeqnum;
    if !path.present {
      var created := OpenNew(path);
      return Ok(created);
    }
    var file := new Reader.EclFile(path.file.content);
    var _ :- file.Scan();
    file.NothingMissing();
    var unified := file.HasKey("SEQNUM");
    SeqnumInIndex(file.Entries(), file.arrayName);
    if !unified {
      return Err(NotUnified);
    }
    var rst := new ERst(file);
    var _ :- rst.InitUnified();
    var pos := rst.RestartStepWritePosition(seqnum);
    var stream := OpenExisting(path, pos);
    r := Ok(stream);
  }

  lemma {:induction false} SeqnumInIndex(es: seq<Entry>, names: seq<seq<byte>>)
    requires |es| == |names| && forall i :: 0 <= i < |es| ==> es[i].name == names[i]
    ensures HasSeqnum(es) <==> "SEQNUM" in names
    ensures !HasSeqnum(es) ==> forall f :: ReadMarks(f, es) == Err(NotUnified)
  {
    if "SEQNUM" in names {
      var i :| 0 <= i < |names| && names[i] == "SEQNUM";
      assert es[i].name == "SEQNUM";
    }
  }

  /** The Restart constructor for unified files: open, then start the new step. */
  method OpenRestart(path: Path, seqnum: int32) returns (r: Result<Writer.EclOutput>)
    modifies path, path.file
    ensures match Reopen(old(path.Content()), seqnum)
            case Err(e) => r == Err(e) && path.Content() == old(path.Content())
            case Ok(kept) =>
              && r.Ok? && fresh(r.value) && r.value.file == path.file && !r.value.ixStandard
              && path.Content() == Some(kept + EncodeArr(false, SeqnumArr(seqnum)))
  {
    hide Reopen, EncodeArr, Writer.Image;
    var stream :- OpenUnified(path, seqnum);
    var data := [Int(seqnum)];
    Writer.ImageOfWritable(false, SeqnumArr(seqnum));
    var _ := stream.Write("SEQNUM", INTE, data);
    r := Ok(stream);
  }

  /** One session: the Restart stream is opened at a step and its arrays written. */
  method WriteStep(path: Path, st: Step) returns (r: Result<()>)
    requires OrdinaryStep(st)
    modifies path, path.file
    ensures match Session(old(path.Content()), st)
            case Err(e) => r == Err(e) && path.Content() == old(path.Content())
            case Ok(content) => r == Ok(()) && path.Content() == Some(content)
  {
    hide Reopen, EncodeArr, Writer.Image, Ordinary, SeqnumArr, Writable;
    ghost var start := path.Content();
    var stream :- OpenRestart(path, st.seqnum);
    ghost var kept := Reopen(start, st.seqnum).value;
    ghost var arrs := StepArrs(st);
    OneArray(st);
    for i := 0 to |st.arrs|
      invariant stream.file == path.file && !stream.ixStandard
      invariant path.Content() == Some(kept + EncodeFile(false, arrs[..i + 1]))
    {
      NextArray(kept, arrs, i + 1);
      OrdinaryIsWritable(st.arrs[i]);
      WriteArray(stream, st.arrs[i]);
    }
    assert arrs[..|arrs|] == arrs;
    r := Ok(());
  }

  lemma OrdinaryIsWritable(a: Arr)
    requires Ordinary(a)
    ensures Writable(a)
  {}

  lemma {:induction false} OneArray(st: Step)
    requires OrdinaryStep(st)
    ensures EncodeFile(false, StepArrs(st)[..1]) == EncodeArr(false, SeqnumArr(st.seqnum))
  {
    hide EncodeArr;
    assert StepArrs(st)[..1] == [SeqnumArr(st.seqnum)];
    assert [SeqnumArr(st.seqnum)][1..] == [];
  }

  lemma {:induction false} NextArray(kept: seq<byte>, arrs: seq<Arr>, k: nat)
    requires AllWritable(arrs) && k < |arrs|
    ensures kept + EncodeFile(false, arrs[..k + 1]) == kept + EncodeFile(false, arrs[..k]) + EncodeArr(false, arrs[k])
  {
    hide EncodeArr, AllFit, CounterFits, Ulp;
    assert arrs[..k + 1] == arrs[..k] + [arrs[k]];
    EncodeFileConcat(false, arrs[..k], [arrs[k]]);
    assert [arrs[k]][1..] == [];
    assert EncodeFile(false, [arrs[k]]) == EncodeArr(false, arrs[k]);
  }

  /** The overload of write for the type of the array. */
  method WriteArray(stream: Writer.EclOutput, a: Arr)
    requires Writable(a)
    modifies stream.file
    ensures stream.file.content == old(stream.file.content) + EncodeArr(stream.ixStandard, a)
  {
    hide EncodeArr, Writer.Image, CounterFits, Ulp;
    Writer.ImageOfWritable(stream.ixStandard, a);
    if a.typ.CHAR? || a.typ.C0NN? {
      var _ := stream.WriteStringArray(a.name, a.typ, a.width, a.items);
    } else {
      var _ := stream.Write(a.name, a.typ, a.items);
    }
  }
}
