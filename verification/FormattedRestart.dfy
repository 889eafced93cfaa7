// Formatted unified restart files: the report steps ERst finds in a file, and what a
// run of sessions leaves behind, up to the blanks that reopening leaves.

module FormattedRestart {
  import opened Bytes
  import opened Arith
  import opened Text
  import opened EclData
  import opened FormattedText
  import opened FormattedFile
  import RestartFile

  // ------------------------------------------------------------------
  // What ERst makes of an index

  /** The first number of an array of integers. */
  function FirstNumber(d: Data): Result<int32> {
    if !d.Texts? then Err(OutOfRange)
    else
      var ns :- Stois(d.ts);
      if ns == [] || !(-TWO31 <= ns[0] < TWO31) then Err(OutOfRange) else Ok(ns[0])
  }

  /** initUnified: the loop over the index from entry i on. */
  function Marks(f: seq<byte>, es: seq<FEntry>, i: nat, inStep: bool): Result<seq<RestartFile.Mark>>
    requires i <= |es|
    decreases |es| - i
  {
    if i == |es| then Ok([])
    else if es[i].name == "SEQNUM" then
      if !es[i].typ.INTE? then Err(WrongType)
      else
        var d :- FLoad(f, es[i]);
        var seqnum :- FirstNumber(d);
        var more :- Marks(f, es, i + 1, true);
        Ok([RestartFile.Mark(seqnum, i)] + more)
    else if es[i].name == "LGRNAMES" then
      if !es[i].typ.CHAR? then Err(WrongType)
      else
        var _ :- FLoad(f, es[i]);
        if !inStep then Err(OutOfRange) else Marks(f, es, i + 1, inStep)
    else Marks(f, es, i + 1, inStep)
  }

  predicate HasSeqnum(es: seq<FEntry>) {
    exists i :: 0 <= i < |es| && es[i].name == "SEQNUM"
  }

  /** The report steps of a file opened as a unified restart file. All SEQNUM arrays are
      loaded beforehand, which fails only where the loop fails. */
  function ReadMarks(f: seq<byte>, es: seq<FEntry>): Result<seq<RestartFile.Mark>> {
    if !HasSeqnum(es) then Err(NotUnified) else Marks(f, es, 0, false)
  }

  /** restartStepWritePosition: None stands for "append". */
  function WritePosition(es: seq<FEntry>, ms: seq<RestartFile.Mark>, s: int): Option<nat> {
    match RestartFile.MinAtLeast(ms, s)
    case None => None
    case Some(k) =>
      var i := RestartFile.LastIndex(ms, k);
      if i.Some? && i.value < |es| then Some(FSeekPosition(es[i.value])) else None
  }

  /** The contents a restart file is left with when it is reopened at step s. */
  function Reopen(content: Option<seq<byte>>, s: int): Result<seq<byte>> {
    match content
    case None => Ok([])
    case Some(f) =>
      var es :- FIndex(f, 0);
      var ms :- ReadMarks(f, es);
      match WritePosition(es, ms, s)
      case None => Ok(f)
      case Some(p) => Ok(if p <= |f| then f[..p] else f + RestartFile.Zeros(p - |f|))
  }

  // ------------------------------------------------------------------
  // Files made of report steps

  datatype FStep = FStep(seqnum: int32, arrs: seq<FArr>)

  /** A step in a file, and the blanks before its SEQNUM header. */
  datatype Placed = Placed(blanks: nat, step: FStep)

  function SeqnumArr(seqnum: int32): FArr {
    FArr("SEQNUM", INTE, 4, Texts([ToString(seqnum)]))
  }

  /** Arrays a step may hold: they come back from the file, and are not taken for
      the start of a step or for names of another type. */
  predicate Ordinary(a: FArr) {
    && FWritable(a)
    && Trim(a.name) != "SEQNUM"
    && (Trim(a.name) == "LGRNAMES" ==> a.typ.CHAR?)
  }

  predicate OrdinaryStep(st: FStep) {
    forall i :: 0 <= i < |st.arrs| ==> Ordinary(st.arrs[i])
  }

  predicate OrdinarySteps(ps: seq<Placed>) {
    forall i :: 0 <= i < |ps| ==> OrdinaryStep(ps[i].step)
  }

  predicate Increasing(ps: seq<Placed>) {
    forall i, j :: 0 <= i < j < |ps| ==> ps[i].step.seqnum < ps[j].step.seqnum
  }

  lemma {:induction false} SeqnumWritable(seqnum: int32)
    ensures FWritable(SeqnumArr(seqnum)) && Trim("SEQNUM") == "SEQNUM"
  {
    hide ToString;
    IntText(seqnum);
    TrimIsUnique("SEQNUM", "SEQNUM");
  }

  function StepArrs(st: FStep): (arrs: seq<FArr>)
    requires OrdinaryStep(st)
    ensures AllFWritable(arrs) && arrs != []
  {
    SeqnumWritable(st.seqnum);
    [SeqnumArr(st.seqnum)] + st.arrs
  }

  function FileChunks(ps: seq<Placed>): (cs: seq<Chunk>)
    requires OrdinarySteps(ps)
    ensures ChunksOk(cs)
  {
    if ps == [] then [] else Fresh(StepArrs(ps[0].step), ps[0].blanks) + FileChunks(ps[1..])
  }

  /** The file that holds the given steps and nothing else. */
  function StepFile(ps: seq<Placed>): seq<byte>
    requires OrdinarySteps(ps)
  {
    EncodeChunks(FileChunks(ps))
  }

  lemma {:induction false} FileChunksConcat(a: seq<Placed>, b: seq<Placed>)
    requires OrdinarySteps(a) && OrdinarySteps(b)
    ensures FileChunks(a + b) == FileChunks(a) + FileChunks(b)
  {
    hide OrdinaryStep, StepArrs, Fresh, FWritable;
    if a == [] {
      assert a + b == b;
    } else {
      FileChunksConcat(a[1..], b);
      assert (a + b)[0] == a[0] && (a + b)[1..] == a[1..] + b;
      Chained(Fresh(StepArrs(a[0].step), a[0].blanks), FileChunks(a[1..]), FileChunks(b));
    }
  }

  lemma Chained(x: seq<Chunk>, y: seq<Chunk>, z: seq<Chunk>)
    ensures x + (y + z) == (x + y) + z
  {}

  // ------------------------------------------------------------------
  // Finding the steps again

  /** The same scan over the arrays that were written. */
  function ChunkMarks(cs: seq<Chunk>, offset: nat, inStep: bool): Result<seq<RestartFile.Mark>>
    requires ChunksOk(cs)
    decreases |cs|
  {
    if cs == [] then Ok([])
    else if Trim(cs[0].a.name) == "SEQNUM" then
      if !cs[0].a.typ.INTE? then Err(WrongType)
      else
        var seqnum :- FirstNumber(Loaded(cs[0].a));
        var more :- ChunkMarks(cs[1..], offset + 1, true);
        Ok([RestartFile.Mark(seqnum, offset)] + more)
    else if Trim(cs[0].a.name) == "LGRNAMES" then
      if !cs[0].a.typ.CHAR? then Err(WrongType)
      else if !inStep then Err(OutOfRange) else ChunkMarks(cs[1..], offset + 1, inStep)
    else ChunkMarks(cs[1..], offset + 1, inStep)
  }

  // Scanning the index of a file is scanning the arrays written to it.
  lemma {:induction false} MarksOfChunks(cs: seq<Chunk>, k: nat, inStep: bool)
    requires ChunksOk(cs) && k <= |cs|
    ensures Marks(EncodeChunks(cs), FEntriesOf(cs, 0), k, inStep) == ChunkMarks(cs[k..], k, inStep)
    decreases |cs| - k
  {
    hide EncodeChunks, FLoad, FWritable, FEntriesOf, Trim, Loaded, FirstNumber;
    if k < |cs| {
      FEntryAt(cs, 0, k);
      LoadChunk(cs, k);
      MarksOfChunks(cs, k + 1, true);
      MarksOfChunks(cs, k + 1, inStep);
      assert cs[k..][1..] == cs[k + 1..];
    }
  }

  // Ordinary arrays leave no marks.
  lemma {:induction false} NoMarks(cs: seq<Chunk>, rest: seq<Chunk>, offset: nat)
    requires (forall i :: 0 <= i < |cs| ==> Ordinary(cs[i].a)) && ChunksOk(rest)
    ensures ChunksOk(cs + rest) && ChunkMarks(cs + rest, offset, true) == ChunkMarks(rest, offset + |cs|, true)
    decreases |cs|
  {
    hide FWritable, Trim, FirstNumber;
    if cs == [] {
      assert cs + rest == rest;
    } else {
      NoMarks(cs[1..], rest, offset + 1);
      assert (cs + rest)[1..] == cs[1..] + rest;
    }
  }

  function StepMarks(ps: seq<Placed>, offset: nat): (ms: seq<RestartFile.Mark>)
    ensures |ms| == |ps|
  {
    if ps == [] then []
    else [RestartFile.Mark(ps[0].step.seqnum, offset)] + StepMarks(ps[1..], offset + 1 + |ps[0].step.arrs|)
  }

  lemma {:induction false} SeqnumBack(seqnum: int32)
    ensures FWritable(SeqnumArr(seqnum)) && FirstNumber(Loaded(SeqnumArr(seqnum))) == Ok(seqnum)
  {
    hide ToString, WithBreaks, Stois;
    SeqnumWritable(seqnum);
    StoisBack(LayoutOf(INTE, 4), [seqnum], 0);
    assert IntTexts([seqnum]) == [ToString(seqnum)];
  }

  lemma {:induction false} StepChunks(p: Placed)
    requires OrdinaryStep(p.step)
    ensures var cs := Fresh(StepArrs(p.step), p.blanks);
      && |cs| == 1 + |p.step.arrs| && cs[0].a == SeqnumArr(p.step.seqnum) && FWritable(cs[0].a)
      && forall i :: 0 <= i < |cs| - 1 ==> Ordinary(cs[1..][i].a)
  {
    hide FWritable, Trim;
    SeqnumWritable(p.step.seqnum);
  }

  // The scan of one step finds its SEQNUM array and nothing else.
  lemma {:induction false} MarksOfStep(p: Placed, rest: seq<Chunk>, offset: nat, inStep: bool)
    requires OrdinaryStep(p.step) && ChunksOk(rest)
    ensures var cs := Fresh(StepArrs(p.step), p.blanks) + rest;
      ChunksOk(cs)
      && ChunkMarks(cs, offset, inStep)
         == (var more := ChunkMarks(rest, offset + 1 + |p.step.arrs|, true);
             if more.Err? then more else Ok([RestartFile.Mark(p.step.seqnum, offset)] + more.value))
  {
    hide FWritable, Loaded, FirstNumber, Fresh, StepArrs, SeqnumArr, Ordinary, ChunkMarks, Trim;
    var cs := Fresh(StepArrs(p.step), p.blanks);
    SeqnumBack(p.step.seqnum);
    SeqnumWritable(p.step.seqnum);
    StepChunks(p);
    NoMarks(cs[1..], rest, offset + 1);
    assert cs + rest == [cs[0]] + (cs[1..] + rest);
    assert (cs + rest)[1..] == cs[1..] + rest;
    FirstMark(cs + rest, p.step.seqnum, offset, inStep);
  }

  lemma FirstMark(cs: seq<Chunk>, seqnum: int32, offset: nat, inStep: bool)
    requires ChunksOk(cs) && cs != [] && cs[0].a == SeqnumArr(seqnum) && Trim("SEQNUM") == "SEQNUM"
    requires FirstNumber(Loaded(cs[0].a)) == Ok(seqnum)
    ensures ChunkMarks(cs, offset, inStep)
         == (var more := ChunkMarks(cs[1..], offset + 1, true);
             if more.Err? then more else Ok([RestartFile.Mark(seqnum, offset)] + more.value))
  {
    hide FWritable, Loaded, FirstNumber, Trim;
  }

  lemma {:induction false} MarksOfSteps(ps: seq<Placed>, offset: nat, inStep: bool)
    requires OrdinarySteps(ps)
    ensures ChunkMarks(FileChunks(ps), offset, inStep) == Ok(StepMarks(ps, offset))
    decreases |ps|
  {
    hide FWritable, OrdinaryStep, Fresh, StepArrs;
    if ps != [] {
      MarksOfStep(ps[0], FileChunks(ps[1..]), offset, inStep);
      MarksOfSteps(ps[1..], offset + 1 + |ps[0].step.arrs|, true);
    }
  }

  // Mark j of a file of steps is step j, at the place where its arrays start.
  lemma {:induction false} StepMarkAt(ps: seq<Placed>, offset: nat, j: nat)
    requires OrdinarySteps(ps) && j < |ps|
    ensures StepMarks(ps, offset)[j] == RestartFile.Mark(ps[j].step.seqnum, offset + |FileChunks(ps[..j])|)
    decreases j
  {
    hide OrdinaryStep, FWritable;
    if j == 0 {
      assert ps[..0] == [];
    } else {
      StepMarkAt(ps[1..], offset + 1 + |ps[0].step.arrs|, j - 1);
      assert ps[..j][1..] == ps[1..][..j - 1];
    }
  }

  // Reading the marks of a file of steps finds exactly its steps.
  lemma {:induction false} ReadMarksOfSteps(ps: seq<Placed>)
    requires OrdinarySteps(ps) && ps != []
    ensures FIndex(StepFile(ps), 0) == Ok(FEntriesOf(FileChunks(ps), 0))
    ensures ReadMarks(StepFile(ps), FEntriesOf(FileChunks(ps), 0)) == Ok(StepMarks(ps, 0))
  {
    hide EncodeChunks, OrdinaryStep, FEntriesOf, FIndex, Marks, ChunkMarks, StepMarks, FWritable, Fresh;
    var cs := FileChunks(ps);
    FIndexOfChunks(cs, 0, 0);
    NoBlanks(EncodeChunks(cs));
    FEntryAt(cs, 0, 0);
    SeqnumWritable(ps[0].step.seqnum);
    FirstChunk(ps);
    assert FEntriesOf(cs, 0)[0].name == "SEQNUM";
    MarksOfChunks(cs, 0, false);
    assert cs[0..] == cs;
    MarksOfSteps(ps, 0, false);
  }

  lemma {:induction false} FirstChunk(ps: seq<Placed>)
    requires OrdinarySteps(ps) && ps != []
    ensures FileChunks(ps) != [] && FileChunks(ps)[0] == Chunk(ps[0].blanks, SeqnumArr(ps[0].step.seqnum))
  {
    hide OrdinaryStep, FWritable;
  }

  // ------------------------------------------------------------------
  // Reopening

  /** How many steps of an increasing file are below s. */
  function CountBelow(ps: seq<Placed>, s: int): (j: nat)
    ensures j <= |ps| && (forall i :: 0 <= i < j ==> ps[i].step.seqnum < s)
    ensures j < |ps| ==> ps[j].step.seqnum >= s
  {
    if ps == [] || ps[0].step.seqnum >= s then 0
    else
      var j := CountBelow(ps[1..], s);
      assert forall i :: 1 <= i < |ps| ==> ps[i] == ps[1..][i - 1];
      1 + j
  }

  // A file of steps is reopened one char into the first header that is not below s.
  lemma {:induction false} WritePositionOfSteps(ps: seq<Placed>, s: int)
    requires OrdinarySteps(ps) && Increasing(ps)
    ensures
      var j := CountBelow(ps, s);
      && WritePosition(FEntriesOf(FileChunks(ps), 0), StepMarks(ps, 0), s)
         == if j == |ps| then None else Some(|StepFile(ps[..j])| + ps[j].blanks + 1)
  {
    hide EncodeChunks, OrdinaryStep, FileChunks, FEntriesOf, CountBelow, StepMarks, FWritable, ChunksOk;
    hide RestartFile.MinAtLeast, RestartFile.LastIndex;
    var ms, j := StepMarks(ps, 0), CountBelow(ps, s);
    forall i | 0 <= i < |ps| ensures ms[i].seqnum == ps[i].step.seqnum {
      StepMarkAt(ps, 0, i);
    }
    if j < |ps| {
      assert ms[j].seqnum >= s;
      assert RestartFile.MinAtLeast(ms, s) == Some(ps[j].step.seqnum);
      StepMarkAt(ps, 0, j);
      RestartFile.LastIndexUnique(ms, j);
      StartOfStep(ps, j);
    }
  }

  // The chunks of step j stand behind those of the steps before it.
  lemma {:induction false} StartOfStep(ps: seq<Placed>, j: nat)
    requires OrdinarySteps(ps) && j < |ps|
    ensures
      var cs, k := FileChunks(ps), |FileChunks(ps[..j])|;
      && k < |cs| && cs[..k] == FileChunks(ps[..j]) && cs[k].blanks == ps[j].blanks
      && FSeekPosition(FEntriesOf(cs, 0)[k]) == |StepFile(ps[..j])| + ps[j].blanks + 1
  {
    hide EncodeChunks, OrdinaryStep, FEntriesOf, FWritable;
    var cs, k := FileChunks(ps), |FileChunks(ps[..j])|;
    FileChunksConcat(ps[..j], ps[j..]);
    assert ps[..j] + ps[j..] == ps;
    FirstChunk(ps[j..]);
    hide FileChunks;
    assert cs[k] == FileChunks(ps[j..])[0] && cs[..k] == FileChunks(ps[..j]);
    FEntryAt(cs, 0, k);
  }

  // Reopening at step s keeps the steps below it, and the blanks before the first step
  // that is dropped and one more.
  lemma {:induction false} ReopenSteps(ps: seq<Placed>, s: int)
    requires OrdinarySteps(ps) && Increasing(ps) && ps != []
    ensures
      var j := CountBelow(ps, s);
      Reopen(Some(StepFile(ps)), s)
      == Ok(StepFile(ps[..j]) + Blanks(if j == |ps| then 0 else ps[j].blanks + 1))
  {
    hide EncodeChunks, OrdinaryStep, FileChunks, FEntriesOf, FIndex, ReadMarks, CountBelow, StepMarks, WritePosition;
    hide FWritable, Blanks;
    var j := CountBelow(ps, s);
    ReadMarksOfSteps(ps);
    WritePositionOfSteps(ps, s);
    if j < |ps| {
      StartOfStep(ps, j);
      TruncateChunks(FileChunks(ps), |FileChunks(ps[..j])|);
    } else {
      assert ps[..j] == ps;
      NoBlanks(StepFile(ps));
    }
  }

  // ------------------------------------------------------------------
  // Runs

  /** One session: open the restart file at a step and write its arrays. */
  function Session(content: Option<seq<byte>>, st: FStep): Result<seq<byte>>
    requires OrdinaryStep(st)
  {
    var kept :- Reopen(content, st.seqnum);
    Ok(kept + EncodeFs(StepArrs(st)))
  }

  predicate OrdinaryRun(sessions: seq<FStep>) {
    forall i :: 0 <= i < |sessions| ==> OrdinaryStep(sessions[i])
  }

  /** The restart file after a run of sessions that starts without one. */
  function RunFile(sessions: seq<FStep>): Result<Option<seq<byte>>>
    requires OrdinaryRun(sessions)
  {
    if sessions == [] then Ok(None)
    else
      var content :- RunFile(sessions[..|sessions| - 1]);
      var next :- Session(content, sessions[|sessions| - 1]);
      Ok(Some(next))
  }

  /** The steps after a session: those below its own, and itself behind one blank more
      than stood before the first step it drops. */
  function AfterSession(ps: seq<Placed>, st: FStep): seq<Placed> {
    var j := CountBelow(ps, st.seqnum);
    ps[..j] + [Placed(if j == |ps| then 0 else ps[j].blanks + 1, st)]
  }

  function RunSteps(sessions: seq<FStep>): seq<Placed> {
    if sessions == [] then []
    else AfterSession(RunSteps(sessions[..|sessions| - 1]), sessions[|sessions| - 1])
  }

  function ContentOf(ps: seq<Placed>): Option<seq<byte>>
    requires OrdinarySteps(ps)
  {
    if ps == [] then None else Some(StepFile(ps))
  }

  // Arrays written behind some blanks make one more step.
  lemma {:induction false} AppendStep(ps: seq<Placed>, n: nat, st: FStep)
    requires OrdinarySteps(ps) && OrdinaryStep(st)
    ensures OrdinarySteps(ps + [Placed(n, st)])
    ensures StepFile(ps + [Placed(n, st)]) == (StepFile(ps) + Blanks(n)) + EncodeFs(StepArrs(st))
  {
    hide EncodeChunks, EncodeFs, OrdinaryStep, StepArrs, Blanks, Fresh, FWritable;
    var last := [Placed(n, st)];
    FileChunksConcat(ps, last);
    assert last[1..] == [] && FileChunks(last) == Fresh(StepArrs(st), n) + [];
    EncodeFresh(StepArrs(st), n);
    EncodeConcat(FileChunks(ps), FileChunks(last));
    assert FileChunks(last) == Fresh(StepArrs(st), n);
    Assoc(StepFile(ps), Blanks(n), EncodeFs(StepArrs(st)));
  }

  // A session on an increasing file keeps the steps below its own, drops the others,
  // and adds itself.
  lemma {:induction false} SessionKeepsSteps(ps: seq<Placed>, st: FStep)
    requires OrdinarySteps(ps) && Increasing(ps) && OrdinaryStep(st)
    ensures var next := AfterSession(ps, st);
      && OrdinarySteps(next) && Increasing(next)
      && Session(ContentOf(ps), st) == Ok(StepFile(next))
  {
    hide StepFile, OrdinaryStep, CountBelow, StepArrs, EncodeFs, Reopen, Blanks;
    var j := CountBelow(ps, st.seqnum);
    if ps == [] {
      NothingYet(st.seqnum);
    } else {
      ReopenSteps(ps, st.seqnum);
    }
    AppendStep(ps[..j], if j == |ps| then 0 else ps[j].blanks + 1, st);
  }

  lemma NothingYet(s: int)
    ensures Reopen(None, s) == Ok([]) && StepFile([]) + Blanks(0) == []
  {}

  // Over every run the file is the file of the steps the run is meant to leave,
  // those are strictly increasing, and reading it back finds exactly them.
  lemma {:induction false} RunKeepsSteps(sessions: seq<FStep>)
    requires OrdinaryRun(sessions)
    ensures OrdinarySteps(RunSteps(sessions)) && Increasing(RunSteps(sessions))
    ensures sessions != [] ==> RunSteps(sessions) != []
    ensures RunFile(sessions) == Ok(ContentOf(RunSteps(sessions)))
    ensures sessions != [] ==>
      var f := StepFile(RunSteps(sessions));
      && FIndex(f, 0).Ok?
      && ReadMarks(f, FIndex(f, 0).value) == Ok(StepMarks(RunSteps(sessions), 0))
    decreases |sessions|
  {
    hide StepFile, OrdinaryStep, FIndex, ReadMarks, StepMarks, Session, CountBelow;
    if sessions != [] {
      RunKeepsSteps(sessions[..|sessions| - 1]);
      SessionKeepsSteps(RunSteps(sessions[..|sessions| - 1]), sessions[|sessions| - 1]);
      ReadMarksOfSteps(RunSteps(sessions));
    }
  }
}
