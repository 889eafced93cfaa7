// Unified restart files: the report steps ERst finds in a file, the position at
// which Restart reopens it, and what a run of report steps leaves behind.

module RestartFile {
  import opened Bytes
  import opened Arith
  import opened Text
  import opened EclData
  import opened BinaryFormat
  import opened EclHeader
  import opened EclIndex

  // ------------------------------------------------------------------
  // What ERst makes of an index

  /** A SEQNUM array: its report step and its place in the index. */
  datatype Mark = Mark(seqnum: int32, index: nat)

  function FirstNumber(items: seq<Item>): Result<int32> {
    if items != [] && items[0].Int? then Ok(items[0].i) else Err(OutOfRange)
  }

  /** initUnified: the loop over the index from entry i on. LGRNAMES arrays are
      loaded as CHAR and belong to the step before them. */
  function Marks(f: seq<byte>, es: seq<Entry>, i: nat, inStep: bool): Result<seq<Mark>>
    requires i <= |es|
    decreases |es| - i
  {
    if i == |es| then Ok([])
    else if es[i].name == "SEQNUM" then
      if !es[i].typ.INTE? then Err(WrongType)
      else
        var items :- LoadEntry(f, es[i]);
        var seqnum :- FirstNumber(items);
        var more :- Marks(f, es, i + 1, true);
        Ok([Mark(seqnum, i)] + more)
    else if es[i].name == "LGRNAMES" then
      if !es[i].typ.CHAR? then Err(WrongType)
      else
        var _ :- LoadEntry(f, es[i]);
        if !inStep then Err(OutOfRange) else Marks(f, es, i + 1, inStep)
    else Marks(f, es, i + 1, inStep)
  }

  predicate HasSeqnum(es: seq<Entry>) {
    exists i :: 0 <= i < |es| && es[i].name == "SEQNUM"
  }

  /** The report steps of a file opened as a unified restart file. */
  function ReadMarks(f: seq<byte>, es: seq<Entry>): Result<seq<Mark>> {
    if !HasSeqnum(es) then Err(NotUnified)
    else
      var _ :- LoadNamed(f, es, "SEQNUM");
      Marks(f, es, 0, false)
  }

  /** The smallest report step not below s: lower_bound on the map of steps. */
  function MinAtLeast(ms: seq<Mark>, s: int): (r: Option<int32>)
    ensures r.None? <==> forall i :: 0 <= i < |ms| ==> ms[i].seqnum < s
    ensures r.Some? ==> r.value >= s && (exists i :: 0 <= i < |ms| && ms[i].seqnum == r.value)
                        && (forall i :: 0 <= i < |ms| && ms[i].seqnum >= s ==> r.value <= ms[i].seqnum)
  {
    if ms == [] then None
    else
      var rest := MinAtLeast(ms[1..], s);
      assert forall i :: 1 <= i < |ms| ==> ms[i] == ms[1..][i - 1];
      if ms[0].seqnum >= s && (rest.None? || ms[0].seqnum <= rest.value) then
        Some(ms[0].seqnum)
      else
        assert rest.Some? ==> exists j :: 0 <= j < |ms[1..]| && ms[1..][j].seqnum == rest.value;
        assert rest.Some? ==> exists i :: 0 <= i < |ms| && ms[i].seqnum == rest.value by {
          if rest.Some? {
            var j :| 0 <= j < |ms[1..]| && ms[1..][j].seqnum == rest.value;
            assert ms[j + 1].seqnum == rest.value;
          }
        }
        rest
  }

  /** The place in the index a step is mapped to: its last SEQNUM array. */
  function LastIndex(ms: seq<Mark>, seqnum: int): (r: Option<nat>)
    ensures r.Some? <==> exists i :: 0 <= i < |ms| && ms[i].seqnum == seqnum
  {
    if ms == [] then None
    else if ms[|ms| - 1].seqnum == seqnum then Some(ms[|ms| - 1].index)
    else
      assert forall i :: 0 <= i < |ms| - 1 ==> ms[i] == ms[..|ms| - 1][i];
      LastIndex(ms[..|ms| - 1], seqnum)
  }

  function SeekPosition(e: Entry): nat {
    if e.pos <= HEADER_SIZE then 0 else e.pos - HEADER_SIZE
  }

  /** restartStepWritePosition: None stands for "append". */
  function WritePosition(es: seq<Entry>, ms: seq<Mark>, s: int): Option<nat> {
    match MinAtLeast(ms, s)
    case None => None
    case Some(k) =>
      var i := LastIndex(ms, k);
      if i.Some? && i.value < |es| then Some(SeekPosition(es[i.value])) else None
  }

  /** The contents a restart file is left with when it is reopened at step s. */
  function Reopen(content: Option<seq<byte>>, s: int): Result<seq<byte>> {
    match content
    case None => Ok([])
    case Some(f) =>
      var es :- Index(f, 0);
      var ms :- ReadMarks(f, es);
      match WritePosition(es, ms, s)
      case None => Ok(f)
      case Some(p) => Ok(if p <= |f| then f[..p] else f + Zeros(p - |f|))
  }

  /** resize_file past the end fills with zero bytes. */
  function Zeros(n: nat): (s: seq<byte>)
    ensures |s| == n && forall i :: 0 <= i < n ==> s[i] as int == 0
  {
    seq(n, _ => 0 as char)
  }

  // ------------------------------------------------------------------
  // Files made of report steps

  datatype Step = Step(seqnum: int32, arrs: seq<Arr>)

  function SeqnumArr(seqnum: int32): (a: Arr)
    ensures Writable(a)
  {
    var a := Arr("SEQNUM", INTE, 4, [Int(seqnum)]);
    assert Ulp(1) == 1;
    a
  }

  /** Arrays a step may hold: they come back from the file, and are not taken for
      the start of a step or for names of another type. */
  predicate Ordinary(a: Arr) {
    && Writable(a)
    && Trim(a.name) != "SEQNUM"
    && (Trim(a.name) == "LGRNAMES" ==> a.typ.CHAR?)
  }

  predicate OrdinaryStep(st: Step) {
    forall i :: 0 <= i < |st.arrs| ==> Ordinary(st.arrs[i])
  }

  predicate OrdinarySteps(steps: seq<Step>) {
    forall i :: 0 <= i < |steps| ==> OrdinaryStep(steps[i])
  }

  predicate Increasing(steps: seq<Step>) {
    forall i, j :: 0 <= i < j < |steps| ==> steps[i].seqnum < steps[j].seqnum
  }

  function StepArrs(st: Step): (arrs: seq<Arr>)
    requires OrdinaryStep(st)
    ensures AllWritable(arrs)
  {
    [SeqnumArr(st.seqnum)] + st.arrs
  }

  function FileArrs(steps: seq<Step>): (arrs: seq<Arr>)
    requires OrdinarySteps(steps)
    ensures AllWritable(arrs)
  {
    if steps == [] then [] else StepArrs(steps[0]) + FileArrs(steps[1..])
  }

  /** The file that holds the given steps and nothing else. */
  function StepFile(steps: seq<Step>): seq<byte>
    requires OrdinarySteps(steps)
  {
    EncodeFile(false, FileArrs(steps))
  }

  /** The steps below s. */
  function Below(steps: seq<Step>, s: int): (r: seq<Step>)
    ensures forall i :: 0 <= i < |r| ==> r[i] in steps && r[i].seqnum < s
  {
    if steps == [] then []
    else if steps[0].seqnum < s then [steps[0]] + Below(steps[1..], s)
    else Below(steps[1..], s)
  }

  lemma {:induction false} FileArrsConcat(a: seq<Step>, b: seq<Step>)
    requires OrdinarySteps(a) && OrdinarySteps(b)
    ensures FileArrs(a + b) == FileArrs(a) + FileArrs(b)
  {
    hide OrdinaryStep, StepArrs;
    if a == [] {
      assert a + b == b;
    } else {
      FileArrsConcat(a[1..], b);
      assert (a + b)[1..] == a[1..] + b;
      assert StepArrs(a[0]) + (FileArrs(a[1..]) + FileArrs(b)) == StepArrs(a[0]) + FileArrs(a[1..]) + FileArrs(b);
    }
  }

  lemma {:induction false} BelowNothing(steps: seq<Step>, s: int)
    requires forall i :: 0 <= i < |steps| ==> steps[i].seqnum >= s
    ensures Below(steps, s) == []
  {
    if steps != [] { BelowNothing(steps[1..], s); }
  }

  // In an increasing file the steps below s come first.
  lemma {:induction false} BelowIsPrefix(steps: seq<Step>, s: int)
    requires Increasing(steps)
    ensures |Below(steps, s)| <= |steps|
    ensures Below(steps, s) == steps[..|Below(steps, s)|]
    ensures forall i :: |Below(steps, s)| <= i < |steps| ==> steps[i].seqnum >= s
    decreases |steps|
  {
    if steps == [] {
    } else if steps[0].seqnum < s {
      BelowIsPrefix(steps[1..], s);
      var rest := Below(steps[1..], s);
      assert steps[..|rest| + 1] == [steps[0]] + steps[1..][..|rest|];
      assert forall i :: 1 <= i < |steps| ==> steps[i] == steps[1..][i - 1];
    } else {
      BelowNothing(steps, s);
    }
  }

  // ------------------------------------------------------------------
  // Finding the steps again

  /** The same scan over the arrays that were written. */
  function ArrMarks(arrs: seq<Arr>, offset: nat, inStep: bool): Result<seq<Mark>>
    decreases |arrs|
  {
    if arrs == [] then Ok([])
    else if Trim(arrs[0].name) == "SEQNUM" then
      if !arrs[0].typ.INTE? then Err(WrongType)
      else
        var seqnum :- FirstNumber(arrs[0].items);
        var more :- ArrMarks(arrs[1..], offset + 1, true);
        Ok([Mark(seqnum, offset)] + more)
    else if Trim(arrs[0].name) == "LGRNAMES" then
      if !arrs[0].typ.CHAR? then Err(WrongType)
      else if !inStep then Err(OutOfRange) else ArrMarks(arrs[1..], offset + 1, inStep)
    else ArrMarks(arrs[1..], offset + 1, inStep)
  }

  lemma FirstCanonical(items: seq<Item>)
    ensures FirstNumber(AllCanonical(items)) == FirstNumber(items)
  {}

  // Scanning the index of a file is scanning the arrays written to it.
  lemma {:induction false} MarksOfArrays(arrs: seq<Arr>, k: nat, inStep: bool)
    requires AllWritable(arrs) && k <= |arrs|
    ensures Index(EncodeFile(false, arrs), 0).Ok?
    ensures |Index(EncodeFile(false, arrs), 0).value| == |arrs|
    ensures Marks(EncodeFile(false, arrs), Index(EncodeFile(false, arrs), 0).value, k, inStep)
         == ArrMarks(arrs[k..], k, inStep)
    decreases |arrs| - k
  {
    hide Index, EncodeFile, LoadEntry, Writable, EntriesOf, Trim, AllCanonical, FirstNumber;
    IndexOfWritten(false, arrs, 0);
    if k < |arrs| {
      FileRoundTrip(false, arrs, k);
      FirstCanonical(arrs[k].items);
      MarksOfArrays(arrs, k + 1, true);
      MarksOfArrays(arrs, k + 1, inStep);
      assert arrs[k..][1..] == arrs[k + 1..];
    }
  }

  lemma {:induction false} AllLoad(f: seq<byte>, es: seq<Entry>, name: seq<byte>)
    requires forall i :: 0 <= i < |es| ==> LoadEntry(f, es[i]).Ok?
    ensures LoadNamed(f, es, name) == Ok(())
  {
    hide LoadEntry;
    if es != [] {
      assert forall i :: 0 <= i < |es[1..]| ==> es[1..][i] == es[i + 1];
      AllLoad(f, es[1..], name);
    }
  }

  // Ordinary arrays leave no marks.
  lemma {:induction false} NoMarks(arrs: seq<Arr>, rest: seq<Arr>, offset: nat)
    requires forall i :: 0 <= i < |arrs| ==> Ordinary(arrs[i])
    ensures ArrMarks(arrs + rest, offset, true) == ArrMarks(rest, offset + |arrs|, true)
    decreases |arrs|
  {
    hide Writable, Trim, FirstNumber;
    if arrs == [] {
      assert arrs + rest == rest;
    } else {
      NoMarks(arrs[1..], rest, offset + 1);
      assert (arrs + rest)[1..] == arrs[1..] + rest;
    }
  }

  function StepMarks(steps: seq<Step>, offset: nat): (ms: seq<Mark>)
    requires OrdinarySteps(steps)
    ensures |ms| == |steps|
  {
    if steps == [] then []
    else [Mark(steps[0].seqnum, offset)] + StepMarks(steps[1..], offset + 1 + |steps[0].arrs|)
  }

  lemma {:induction false} MarksOfSteps(steps: seq<Step>, offset: nat, inStep: bool)
    requires OrdinarySteps(steps)
    ensures ArrMarks(FileArrs(steps), offset, inStep) == Ok(StepMarks(steps, offset))
    decreases |steps|
  {
    hide Ordinary;
    if steps != [] {
      var st := steps[0];
      var rest := FileArrs(steps[1..]);
      SeqnumName(st.seqnum);
      assert StepArrs(st) + rest == [SeqnumArr(st.seqnum)] + (st.arrs + rest);
      assert ([SeqnumArr(st.seqnum)] + (st.arrs + rest))[1..] == st.arrs + rest;
      NoMarks(st.arrs, rest, offset + 1);
      MarksOfSteps(steps[1..], offset + 1 + |st.arrs|, true);
    }
  }

  lemma {:induction false} SeqnumName(seqnum: int32)
    ensures Trim(SeqnumArr(seqnum).name) == "SEQNUM"
  {
    TrimIsUnique("SEQNUM", "SEQNUM");
  }

  // Mark j of a file of steps is step j, at the place where its arrays start.
  lemma {:induction false} StepMarkAt(steps: seq<Step>, offset: nat, j: nat)
    requires OrdinarySteps(steps) && j < |steps|
    ensures StepMarks(steps, offset)[j] == Mark(steps[j].seqnum, offset + |FileArrs(steps[..j])|)
    decreases j
  {
    hide OrdinaryStep;
    if j == 0 {
      assert steps[..0] == [];
    } else {
      StepMarkAt(steps[1..], offset + 1 + |steps[0].arrs|, j - 1);
      assert steps[..j][1..] == steps[1..][..j - 1];
    }
  }

  // ------------------------------------------------------------------
  // Reopening

  lemma {:induction false} LastIndexUnique(ms: seq<Mark>, j: nat)
    requires j < |ms|
    requires forall i :: 0 <= i < |ms| && i != j ==> ms[i].seqnum != ms[j].seqnum
    ensures LastIndex(ms, ms[j].seqnum) == Some(ms[j].index)
    decreases |ms|
  {
    if j < |ms| - 1 {
      LastIndexUnique(ms[..|ms| - 1], j);
    }
  }

  // The position at which a file of steps is reopened is where the first step
  // that is not below s starts.
  lemma {:induction false} WritePositionOfSteps(steps: seq<Step>, s: int)
    requires OrdinarySteps(steps) && Increasing(steps)
    ensures
      var j := |Below(steps, s)|;
      && j <= |steps|
      && WritePosition(EntriesOf(false, FileArrs(steps), 0), StepMarks(steps, 0), s)
         == if j == |steps| then None else Some(|StepFile(steps[..j])|)
  {
    hide EncodeFile, Ordinary, FileArrs, Below, MinAtLeast, LastIndex, EntriesOf, StepArrs, AllWritable, StepMarks;
    var ms := StepMarks(steps, 0);
    var j := |Below(steps, s)|;
    BelowIsPrefix(steps, s);
    forall i | 0 <= i < |steps| ensures ms[i].seqnum == steps[i].seqnum {
      StepMarkAt(steps, 0, i);
    }
    assert forall i :: 0 <= i < j ==> steps[i] == Below(steps, s)[i];
    if j < |steps| {
      assert ms[j].seqnum >= s;
      assert MinAtLeast(ms, s) == Some(steps[j].seqnum);
      StepMarkAt(steps, 0, j);
      LastIndexUnique(ms, j);
      EntryOfStep(steps, j);
    }
  }

  // The entry of a step's SEQNUM array starts where the steps before it end.
  lemma {:induction false} EntryOfStep(steps: seq<Step>, j: nat)
    requires OrdinarySteps(steps) && j < |steps|
    ensures |FileArrs(steps[..j])| < |FileArrs(steps)|
    ensures SeekPosition(EntriesOf(false, FileArrs(steps), 0)[|FileArrs(steps[..j])|]) == |StepFile(steps[..j])|
  {
    hide EncodeFile, Ordinary, EntriesOf, Writable;
    var arrs := FileArrs(steps);
    var k := |FileArrs(steps[..j])|;
    FileArrsConcat(steps[..j], steps[j..]);
    assert steps[..j] + steps[j..] == steps;
    assert FileArrs(steps[j..]) == StepArrs(steps[j]) + FileArrs(steps[j..][1..]);
    assert arrs[k] == SeqnumArr(steps[j].seqnum);
    assert arrs[..k] == FileArrs(steps[..j]);
    EntryAt(false, arrs, 0, k);
  }

  // Reading the marks of a file of steps finds exactly its steps.
  lemma {:induction false} ReadMarksOfSteps(steps: seq<Step>)
    requires OrdinarySteps(steps) && steps != []
    ensures var f := StepFile(steps);
      && Index(f, 0) == Ok(EntriesOf(false, FileArrs(steps), 0))
      && ReadMarks(f, Index(f, 0).value) == Ok(StepMarks(steps, 0))
  {
    hide EncodeFile, Ordinary, EntriesOf, Index, Marks, LoadNamed, LoadEntry, ArrMarks, StepMarks, Writable;
    var arrs := FileArrs(steps);
    var f := StepFile(steps);
    IndexOfWritten(false, arrs, 0);
    var es := Index(f, 0).value;
    assert arrs[0] == SeqnumArr(steps[0].seqnum);
    forall i | 0 <= i < |es| ensures LoadEntry(f, es[i]).Ok? && es[i].name == Trim(arrs[i].name) {
      FileRoundTrip(false, arrs, i);
    }
    SeqnumName(steps[0].seqnum);
    assert es[0].name == "SEQNUM";
    AllLoad(f, es, "SEQNUM");
    MarksOfArrays(arrs, 0, false);
    assert arrs[0..] == arrs;
    MarksOfSteps(steps, 0, false);
  }

  // Reopening at step s keeps the steps below s byte for byte and nothing else.
  lemma {:induction false} ReopenSteps(steps: seq<Step>, s: int)
    requires OrdinarySteps(steps) && Increasing(steps) && steps != []
    ensures OrdinarySteps(Below(steps, s))
    ensures Reopen(Some(StepFile(steps)), s) == Ok(StepFile(Below(steps, s)))
    ensures StepFile(Below(steps, s)) <= StepFile(steps)
  {
    hide StepFile, Ordinary, EntriesOf, Index, ReadMarks, Below, StepMarks, WritePosition;
    var j := |Below(steps, s)|;
    ReadMarksOfSteps(steps);
    WritePositionOfSteps(steps, s);
    BelowIsPrefix(steps, s);
    StepFilePrefix(steps, j);
    if j == |steps| {
      assert steps[..j] == steps;
    }
  }

  lemma {:induction false} StepFilePrefix(steps: seq<Step>, j: nat)
    requires OrdinarySteps(steps) && j <= |steps|
    ensures |StepFile(steps[..j])| <= |StepFile(steps)|
    ensures StepFile(steps[..j]) == StepFile(steps)[..|StepFile(steps[..j])|]
  {
    hide EncodeFile, Ordinary, FileArrs;
    FileArrsConcat(steps[..j], steps[j..]);
    assert steps[..j] + steps[j..] == steps;
    EncodeFileConcat(false, FileArrs(steps[..j]), FileArrs(steps[j..]));
    SplitAt(EncodeFile(false, FileArrs(steps[..j])), EncodeFile(false, FileArrs(steps[j..])));
  }

  // ------------------------------------------------------------------
  // Runs

  /** One session: open the restart file at a step and write its arrays. */
  function Session(content: Option<seq<byte>>, st: Step): Result<seq<byte>>
    requires OrdinaryStep(st)
  {
    var kept :- Reopen(content, st.seqnum);
    Ok(kept + EncodeFile(false, StepArrs(st)))
  }

  /** The restart file after a run of sessions that starts without one. */
  function RunFile(sessions: seq<Step>): Result<Option<seq<byte>>>
    requires OrdinarySteps(sessions)
  {
    if sessions == [] then Ok(None)
    else
      var content :- RunFile(sessions[..|sessions| - 1]);
      var next :- Session(content, sessions[|sessions| - 1]);
      Ok(Some(next))
  }

  /** The steps a run is meant to leave: each session drops the steps at or above
      its own and adds itself. */
  function RunSteps(sessions: seq<Step>): seq<Step> {
    if sessions == [] then []
    else Below(RunSteps(sessions[..|sessions| - 1]), sessions[|sessions| - 1].seqnum) + [sessions[|sessions| - 1]]
  }

  lemma {:induction false} AppendStep(steps: seq<Step>, st: Step)
    requires OrdinarySteps(steps) && OrdinaryStep(st)
    ensures OrdinarySteps(steps + [st])
    ensures StepFile(steps + [st]) == StepFile(steps) + EncodeFile(false, StepArrs(st))
  {
    hide EncodeFile, Ordinary;
    FileArrsConcat(steps, [st]);
    assert FileArrs([st]) == StepArrs(st) by {
      assert [st][1..] == [];
      assert StepArrs(st) + [] == StepArrs(st);
    }
    EncodeFileConcat(false, FileArrs(steps), StepArrs(st));
  }

  /** A restart file that holds the given steps: none before the first session. */
  function ContentOf(steps: seq<Step>): Option<seq<byte>>
    requires OrdinarySteps(steps)
  {
    if steps == [] then None else Some(StepFile(steps))
  }

  // A session on an increasing file drops the steps at or above its own, keeps
  // the others byte for byte, and adds itself.
  lemma {:induction false} SessionKeepsSteps(steps: seq<Step>, st: Step)
    requires OrdinarySteps(steps) && Increasing(steps) && OrdinaryStep(st)
    ensures var next := Below(steps, st.seqnum) + [st];
      && OrdinarySteps(next) && Increasing(next)
      && Session(ContentOf(steps), st) == Ok(StepFile(next))
  {
    hide EncodeFile, StepFile, OrdinaryStep, Below, StepArrs;
    var kept := Below(steps, st.seqnum);
    BelowIsPrefix(steps, st.seqnum);
    if steps == [] {
      BelowNothing([], st.seqnum);
      NoSteps();
    } else {
      ReopenSteps(steps, st.seqnum);
    }
    AppendStep(kept, st);
  }

  // Over every run the file is the file of the steps the run is meant to leave,
  // those are strictly increasing, and reading it back finds exactly them.
  lemma {:induction false} RunKeepsSteps(sessions: seq<Step>)
    requires OrdinarySteps(sessions)
    ensures OrdinarySteps(RunSteps(sessions)) && Increasing(RunSteps(sessions))
    ensures sessions != [] ==> RunSteps(sessions) != []
    ensures RunFile(sessions) == Ok(ContentOf(RunSteps(sessions)))
    ensures sessions != [] ==>
      var f := StepFile(RunSteps(sessions));
      && Index(f, 0).Ok?
      && ReadMarks(f, Index(f, 0).value) == Ok(StepMarks(RunSteps(sessions), 0))
    decreases |sessions|
  {
    hide StepFile, OrdinaryStep, Index, ReadMarks, Below, StepMarks, Session;
    if sessions != [] {
      RunKeepsSteps(sessions[..|sessions| - 1]);
      SessionKeepsSteps(RunSteps(sessions[..|sessions| - 1]), sessions[|sessions| - 1]);
      ReadMarksOfSteps(RunSteps(sessions));
    }
  }

  lemma NoSteps()
    ensures StepFile([]) == []
  {}
}
