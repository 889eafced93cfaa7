// Flow rates of the segments of a well: the sources of the open connections are
// added up from the toes to the heel, if the segments are visited in that order.

module SegmentFlow {
  import opened Segments
  import opened Text

  // ------------------------------------------------------------------
  // Flows

  /** Surface rates of the three phases. */
  datatype Flow = Flow(oil: real, wat: real, gas: real)

  const ZERO: Flow := Flow(0.0, 0.0, 0.0)

  function Plus(a: Flow, b: Flow): Flow {
    Flow(a.oil + b.oil, a.wat + b.wat, a.gas + b.gas)
  }

  predicate Within(list: seq<nat>, n: nat) {
    forall k :: 0 <= k < |list| ==> list[k] < n
  }

  /** The sum of the flows of some segments. */
  function SumOver(list: seq<nat>, flows: seq<Flow>): Flow
    requires Within(list, |flows|)
  {
    if list == [] then ZERO
    else Plus(SumOver(list[..|list| - 1], flows), flows[list[|list| - 1]])
  }

  function Sum(flows: seq<Flow>): Flow {
    if flows == [] then ZERO else Plus(Sum(flows[..|flows| - 1]), flows[|flows| - 1])
  }

  lemma {:induction false} SumOverConcat(a: seq<nat>, b: seq<nat>, flows: seq<Flow>)
    requires Within(a, |flows|)
    requires Within(b, |flows|)
    ensures Within(a + b, |flows|)
    ensures SumOver(a + b, flows) == Plus(SumOver(a, flows), SumOver(b, flows))
    decreases |b|
  {
    if b == [] {
      assert a + b == a;
    } else {
      assert (a + b)[..|a + b| - 1] == a + b[..|b| - 1];
      SumOverConcat(a, b[..|b| - 1], flows);
    }
  }

  // ------------------------------------------------------------------
  // Permutations

  /** The numbers below n, each once. */
  ghost predicate Permutation(list: seq<nat>, n: nat) {
    NoRepeats(list) && forall x: nat :: x in list <==> x < n
  }

  lemma {:induction false} WithoutLast(list: seq<nat>, n: nat) returns (k: nat)
    requires Permutation(list, n) && n > 0
    ensures k < |list| && list[k] == n - 1 && Permutation(list[..k] + list[k + 1..], n - 1)
  {
    assert n - 1 in list;
    k :| 0 <= k < |list| && list[k] == n - 1;
    var rest := list[..k] + list[k + 1..];
    forall x: nat ensures x in rest <==> x < n - 1 {
      if x in rest {
        var j :| 0 <= j < |rest| && rest[j] == x;
        var i := if j < k then j else j + 1;
        assert x == list[i] && i != k;
        assert list[i] in list;
      }
      if x < n - 1 {
        assert x in list;
        var j :| 0 <= j < |list| && list[j] == x;
        assert x == rest[if j < k then j else j - 1];
      }
    }
  }

  lemma {:induction false} PermutationSum(list: seq<nat>, flows: seq<Flow>)
    requires Permutation(list, |flows|)
    ensures |list| == |flows|
    ensures Within(list, |flows|)
    ensures SumOver(list, flows) == Sum(flows)
    decreases |flows|
  {
    hide Permutation, SumOver;
    var n := |flows|;
    PermutationWithin(list, n);
    if n == 0 {
      SumOverNone(flows);
    } else {
      var k := WithoutLast(list, n);
      var init := flows[..n - 1];
      var a, b := list[..k], list[k + 1..];
      PermutationSum(a + b, init);
      assert Within(a + b, n);
      SameSum(a + b, init, flows);
      SumMiddle(a, n - 1, b, flows);
      AroundIndex(list, k);
      assert Sum(flows) == Plus(Sum(init), flows[n - 1]);
      assert SumOver(list, flows) == Plus(SumOver(a + b, flows), flows[n - 1]);
    }
  }

  lemma SumOverNone(flows: seq<Flow>)
    ensures SumOver([], flows) == ZERO
  {}

  lemma AroundIndex(list: seq<nat>, k: nat)
    requires k < |list|
    ensures list == list[..k] + ([list[k]] + list[k + 1..])
  {}

  lemma {:induction false} PermutationWithin(list: seq<nat>, n: nat)
    requires Permutation(list, n)
    ensures Within(list, n) && (n == 0 ==> list == [])
  {
    forall k | 0 <= k < |list| ensures list[k] < n {
      assert list[k] in list;
    }
    assert |list| > 0 ==> list[0] < n;
  }

  lemma {:induction false} SumMiddle(a: seq<nat>, x: nat, b: seq<nat>, flows: seq<Flow>)
    requires Within(a + b, |flows|)
    requires x < |flows|
    ensures Within(a + ([x] + b), |flows|)
    ensures SumOver(a + ([x] + b), flows) == Plus(SumOver(a + b, flows), flows[x])
  {
    hide SumOver;
    assert forall k :: 0 <= k < |a| ==> (a + b)[k] == a[k];
    assert forall k :: 0 <= k < |b| ==> (a + b)[|a| + k] == b[k];
    SumOverConcat(a, b, flows);
    SumOverConcat([x], b, flows);
    SumOverConcat(a, [x] + b, flows);
    SumOverOne(x, flows);
  }

  lemma {:induction false} SumOverOne(x: nat, flows: seq<Flow>)
    requires x < |flows|
    ensures SumOver([x], flows) == flows[x]
  {
    assert [x][..0] == [];
  }

  lemma {:induction false} SameSum(list: seq<nat>, a: seq<Flow>, b: seq<Flow>)
    requires Within(list, |a|) && Within(list, |b|)
    requires forall k :: 0 <= k < |list| ==> a[list[k]] == b[list[k]]
    ensures SumOver(list, a) == SumOver(list, b)
  {
    if list != [] {
      SameSum(list[..|list| - 1], a, b);
    }
  }

  /** b gives the place of each number in a. */
  ghost predicate IsInverse(a: seq<nat>, b: seq<nat>) {
    |a| == |b| && forall k :: 0 <= k < |a| ==> a[k] < |b| && b[a[k]] == k
  }

  lemma {:induction false} InverseBack(a: seq<nat>, b: seq<nat>)
    requires Permutation(a, |a|) && IsInverse(a, b)
    ensures IsInverse(b, a) && Permutation(b, |b|)
  {
    forall x | 0 <= x < |b| ensures b[x] < |a| && a[b[x]] == x {
      assert x in a;
      var k :| 0 <= k < |a| && a[k] == x;
    }
    forall x: nat ensures x in b <==> x < |b| {
      if x < |b| {
        assert b[a[x]] == x;
      }
    }
  }

  // ------------------------------------------------------------------
  // The whole well

  /** Every segment flows to the top segment; segments are numbered from one, so
      that zero stands for no outlet. */
  ghost predicate Well(segs: seq<Segment>, h: seq<nat>) {
    && Tree(segs, h) && |segs| > 0
    && (forall j :: 0 <= j < |segs| ==> segs[j].number >= 1)
    && forall j :: 0 <= j < |segs| ==> Below(segs, h, j, 0)
  }

  lemma WellIsTree(segs: seq<Segment>, h: seq<nat>)
    requires Well(segs, h)
    ensures Tree(segs, h) && |segs| > 0
  {}

  // The order of a well lists each segment once, behind all its inflows.
  lemma {:induction false} WellOrder(segs: seq<Segment>, h: seq<nat>)
    requires Well(segs, h)
    ensures var order := Order(segs, h, 0);
      Permutation(order, |segs|) && |order| == |segs| && InflowFirst(segs, order)
  {
    hide Order, InflowFirst;
    OrderSorted(segs, h, 0);
    OrderInRange(segs, h, 0);
    forall x: nat ensures x in Order(segs, h, 0) <==> x < |segs| {
      if x < |segs| {
        OrderCovers(segs, h, 0, x);
      }
    }
    PermutationSum(Order(segs, h, 0), seq(|segs|, _ => ZERO));
  }

  /** segmentIndFromOrderedSegmentInd. */
  method SegmentIndFromOrderedSegmentInd(segs: seq<Segment>, ordSegNo: seq<nat>) returns (sNFOSN: seq<nat>)
    requires Permutation(ordSegNo, |segs|) && |ordSegNo| == |segs|
    ensures |sNFOSN| == |segs| && IsInverse(ordSegNo, sNFOSN)
  {
    assert forall k :: 0 <= k < |ordSegNo| ==> ordSegNo[k] in ordSegNo;
    var indices := new nat[|segs|](_ => 0);
    for segInd := 0 to |segs|
      invariant forall k :: 0 <= k < segInd ==> indices[ordSegNo[k]] == k
    {
      indices[ordSegNo[segInd]] := segInd;
    }
    sNFOSN := indices[..];
  }

  /** seg_reorder of the restart file: where each segment stands in the order, from one. */
  method SegReorder(segs: seq<Segment>, ordSegNo: seq<nat>) returns (reorder: seq<nat>)
    requires Unique(segs) && Permutation(ordSegNo, |segs|) && |ordSegNo| == |segs|
    ensures |reorder| == |segs|
    ensures forall k :: 0 <= k < |segs| ==> ordSegNo[k] < |segs| && reorder[ordSegNo[k]] == k + 1
  {
    assert forall k :: 0 <= k < |ordSegNo| ==> ordSegNo[k] in ordSegNo;
    var indices := new nat[|segs|](_ => 0);
    for ind := 0 to |segs|
      invariant forall k :: 0 <= k < ind ==> indices[ordSegNo[k]] == k + 1
    {
      var number := segs[ordSegNo[ind]].number;
      var index := IndexOf(segs, number);
      assert index == ordSegNo[ind];
      indices[index] := ind + 1;
    }
    reorder := indices[..];
  }

  // ------------------------------------------------------------------
  // Source terms

  datatype Connection = Connection(open: bool, index: int, segment: int)

  /** The reported rates of a connection, in SI units; a phase may be missing. */
  datatype Rates = Rates(index: int, oil: Option<real>, wat: Option<real>, gas: Option<real>)

  /** The factors of from_si for liquid and gas surface rates. */
  datatype Units = Units(liquid: real, gas: real)

  function Get(factor: real, q: Option<real>): real {
    -(factor * (if q.Some? then q.value else 0.0))
  }

  /** The first rates of a cell. */
  function FindRates(rates: seq<Rates>, index: int): Option<Rates> {
    if rates == [] then None
    else if rates[0].index == index then Some(rates[0])
    else FindRates(rates[1..], index)
  }

  /** Whether a connection counts. */
  predicate Matched(conn: Connection, rates: seq<Rates>) {
    conn.open && FindRates(rates, conn.index).Some?
  }

  function Term(conn: Connection, rates: seq<Rates>, units: Units): Flow {
    match FindRates(rates, conn.index)
    case None => ZERO
    case Some(q) =>
      if conn.open then Flow(Get(units.liquid, q.oil), Get(units.liquid, q.wat), Get(units.gas, q.gas)) else ZERO
  }

  /** The sum over all open, matched connections. */
  function AllTerms(conns: seq<Connection>, rates: seq<Rates>, units: Units): Flow {
    if conns == [] then ZERO
    else Plus(AllTerms(conns[..|conns| - 1], rates, units), Term(conns[|conns| - 1], rates, units))
  }

  /** The sum over those in one segment. */
  function SegmentTerms(segs: seq<Segment>, conns: seq<Connection>, rates: seq<Rates>, units: Units, i: nat): Flow {
    if conns == [] then ZERO
    else
      var c := conns[|conns| - 1];
      var before := SegmentTerms(segs, conns[..|conns| - 1], rates, units, i);
      if Matched(c, rates) && IndexOf(segs, c.segment) == i then Plus(before, Term(c, rates, units)) else before
  }

  /** The sources of the segments. */
  ghost predicate AreSources(segs: seq<Segment>, conns: seq<Connection>, rates: seq<Rates>, units: Units,
                             src: seq<Flow>) {
    && |src| == |segs|
    && forall i :: 0 <= i < |src| ==> src[i] == SegmentTerms(segs, conns, rates, units, i)
  }

  ghost predicate Placed(segs: seq<Segment>, conns: seq<Connection>, rates: seq<Rates>) {
    forall k :: 0 <= k < |conns| && Matched(conns[k], rates) ==> IndexOf(segs, conns[k].segment) >= 0
  }

  /** find_if over the reported rates. */
  method FindConnection(rates: seq<Rates>, index: int) returns (q: Option<Rates>)
    ensures q == FindRates(rates, index)
  {
    assert rates[0..] == rates;
    for k := 0 to |rates|
      invariant FindRates(rates, index) == FindRates(rates[k..], index)
    {
      assert rates[k..][1..] == rates[k + 1..];
      if rates[k].index == index {
        return Some(rates[k]);
      }
    }
    return None;
  }

  /** getSegmentSetSSTerms, with one array of flows for the three of the phases. */
  method GetSegmentSetSSTerms(segs: seq<Segment>, rates: seq<Rates>, conns: seq<Connection>, units: Units)
    returns (src: seq<Flow>)
    requires Placed(segs, conns, rates)
    ensures AreSources(segs, conns, rates, units, src)
  {
    hide FindRates, Get;
    src := seq(|segs|, _ => ZERO);
    for k := 0 to |conns|
      invariant AreSources(segs, conns[..k], rates, units, src)
    {
      var conn := conns[k];
      assert conns[..k + 1][..k] == conns[..k];
      if !conn.open {
        continue;
      }
      var q := FindConnection(rates, conn.index);
      if q.None? {
        continue;
      }
      var segInd := IndexOf(segs, conn.segment);
      src := src[segInd := Plus(src[segInd],
        Flow(Get(units.liquid, q.value.oil), Get(units.liquid, q.value.wat), Get(units.gas, q.value.gas)))];
    }
    assert conns[..|conns|] == conns;
  }

  lemma {:induction false} SumOfZeros(src: seq<Flow>)
    requires forall i :: 0 <= i < |src| ==> src[i] == ZERO
    ensures Sum(src) == ZERO
  {
    if src != [] {
      SumOfZeros(src[..|src| - 1]);
    }
  }

  lemma {:induction false} SumOfUpdate(src: seq<Flow>, i: nat, q: Flow)
    requires i < |src|
    ensures Sum(src[i := Plus(src[i], q)]) == Plus(Sum(src), q)
  {
    var n := |src| - 1;
    var after := src[i := Plus(src[i], q)];
    if i == n {
      assert after[..n] == src[..n];
    } else {
      SumOfUpdate(src[..n], i, q);
      assert after[..n] == src[..n][i := Plus(src[..n][i], q)];
    }
  }

  // No rate is lost or counted twice on the way to the segments.
  lemma {:induction false} SourcesAddUp(segs: seq<Segment>, conns: seq<Connection>, rates: seq<Rates>, units: Units,
                                        src: seq<Flow>)
    requires Placed(segs, conns, rates) && AreSources(segs, conns, rates, units, src)
    ensures Sum(src) == AllTerms(conns, rates, units)
    decreases |conns|
  {
    hide FindRates, Get;
    if conns == [] {
      SumOfZeros(src);
    } else {
      var init, c := conns[..|conns| - 1], conns[|conns| - 1];
      var before := seq(|segs|, i requires 0 <= i < |segs| => SegmentTerms(segs, init, rates, units, i));
      SourcesAddUp(segs, init, rates, units, before);
      if Matched(c, rates) {
        var i := IndexOf(segs, c.segment);
        SumOfUpdate(before, i, Term(c, rates, units));
        assert src == before[i := Plus(before[i], Term(c, rates, units))];
      } else {
        assert src == before;
      }
    }
  }

  // ------------------------------------------------------------------
  // Phase by phase, in reported rates

  datatype Phase = Oil | Wat | Gas

  ghost function Part(f: Flow, phase: Phase): real {
    match phase
    case Oil => f.oil
    case Wat => f.wat
    case Gas => f.gas
  }

  /** The factor from SI units to those of the run. */
  ghost function Factor(units: Units, phase: Phase): real {
    if phase.Gas? then units.gas else units.liquid
  }

  /** What is reported of a phase: a missing one counts as zero. */
  ghost function Reported(q: Rates, phase: Phase): real {
    match phase
    case Oil => if q.oil == None then 0.0 else q.oil.value
    case Wat => if q.wat == None then 0.0 else q.wat.value
    case Gas => if q.gas == None then 0.0 else q.gas.value
  }

  /** What is reported of the cell of a connection, if that is open. */
  ghost function ReportedAt(c: Connection, rates: seq<Rates>, phase: Phase): real {
    if c.open && FindRates(rates, c.index).Some? then Reported(FindRates(rates, c.index).value, phase) else 0.0
  }

  /** The plain sum over all connections. */
  ghost function AllReported(conns: seq<Connection>, rates: seq<Rates>, phase: Phase): real {
    if conns == [] then 0.0
    else AllReported(conns[..|conns| - 1], rates, phase) + ReportedAt(conns[|conns| - 1], rates, phase)
  }

  /** The plain sum over those in one segment. */
  ghost function ReportedIn(segs: seq<Segment>, conns: seq<Connection>, rates: seq<Rates>, phase: Phase, i: nat): real {
    if conns == [] then 0.0
    else
      var c := conns[|conns| - 1];
      ReportedIn(segs, conns[..|conns| - 1], rates, phase, i)
      + if IndexOf(segs, c.segment) == i then ReportedAt(c, rates, phase) else 0.0
  }

  /** The plain sum over those in some segments. */
  ghost function ReportedOver(list: seq<nat>, segs: seq<Segment>, conns: seq<Connection>, rates: seq<Rates>,
                              phase: Phase): real {
    if list == [] then 0.0
    else
      ReportedOver(list[..|list| - 1], segs, conns, rates, phase)
      + ReportedIn(segs, conns, rates, phase, list[|list| - 1])
  }

  ghost function PartSum(src: seq<Flow>, phase: Phase): real {
    if src == [] then 0.0 else PartSum(src[..|src| - 1], phase) + Part(src[|src| - 1], phase)
  }

  lemma Factored(f: real, a: real, b: real)
    ensures f * (a + b) == f * a + f * b
  {}

  lemma PartOfPlus(a: Flow, b: Flow, phase: Phase)
    ensures Part(Plus(a, b), phase) == Part(a, phase) + Part(b, phase)
    ensures Part(ZERO, phase) == 0.0
  {}

  lemma {:induction false} TermIsReported(c: Connection, rates: seq<Rates>, units: Units, phase: Phase)
    ensures Part(Term(c, rates, units), phase) == -(Factor(units, phase) * ReportedAt(c, rates, phase))
    ensures !Matched(c, rates) ==> ReportedAt(c, rates, phase) == 0.0
  {
    hide FindRates;
  }

  // The source of a segment is minus the factor times what is reported in it.
  lemma {:induction false} SourceIsReported(segs: seq<Segment>, conns: seq<Connection>, rates: seq<Rates>, units: Units,
                                            phase: Phase, i: nat)
    ensures Part(SegmentTerms(segs, conns, rates, units, i), phase)
         == -(Factor(units, phase) * ReportedIn(segs, conns, rates, phase, i))
    decreases |conns|
  {
    hide FindRates, Term, ReportedAt, Factor;
    if conns != [] {
      var init, c := conns[..|conns| - 1], conns[|conns| - 1];
      SourceIsReported(segs, init, rates, units, phase, i);
      TermIsReported(c, rates, units, phase);
      Factored(Factor(units, phase), ReportedIn(segs, init, rates, phase, i), ReportedAt(c, rates, phase));
      Factored(Factor(units, phase), ReportedIn(segs, init, rates, phase, i), 0.0);
    }
  }

  lemma {:induction false} TermsAreReported(conns: seq<Connection>, rates: seq<Rates>, units: Units, phase: Phase)
    ensures Part(AllTerms(conns, rates, units), phase) == -(Factor(units, phase) * AllReported(conns, rates, phase))
    decreases |conns|
  {
    hide FindRates, Term, ReportedAt, Factor, Part, Plus, ZERO;
    PartOfPlus(ZERO, ZERO, phase);
    if conns != [] {
      var init, c := conns[..|conns| - 1], conns[|conns| - 1];
      PartOfPlus(AllTerms(init, rates, units), Term(c, rates, units), phase);
      TermsAreReported(init, rates, units, phase);
      TermIsReported(c, rates, units, phase);
      Factored(Factor(units, phase), AllReported(init, rates, phase), ReportedAt(c, rates, phase));
    }
  }

  lemma {:induction false} SumInParts(src: seq<Flow>, phase: Phase)
    ensures PartSum(src, phase) == Part(Sum(src), phase)
  {
    if src != [] {
      SumInParts(src[..|src| - 1], phase);
    }
  }

  lemma {:induction false} SumOverReported(list: seq<nat>, segs: seq<Segment>, conns: seq<Connection>, rates: seq<Rates>,
                                           units: Units, src: seq<Flow>, phase: Phase)
    requires AreSources(segs, conns, rates, units, src) && Within(list, |src|)
    ensures Part(SumOver(list, src), phase)
         == -(Factor(units, phase) * ReportedOver(list, segs, conns, rates, phase))
    decreases |list|
  {
    hide SegmentTerms, ReportedIn, Factor;
    if list != [] {
      var init, i := list[..|list| - 1], list[|list| - 1];
      SumOverReported(init, segs, conns, rates, units, src, phase);
      SourceIsReported(segs, conns, rates, units, phase, i);
      Factored(Factor(units, phase), ReportedOver(init, segs, conns, rates, phase),
               ReportedIn(segs, conns, rates, phase, i));
    }
  }

  // Every source is minus the factor times what is reported of the phase in its segment,
  // and all together are minus the factor times all that is reported.
  lemma {:induction false} SourcesInReported(segs: seq<Segment>, conns: seq<Connection>, rates: seq<Rates>, units: Units,
                                             src: seq<Flow>, phase: Phase)
    requires Placed(segs, conns, rates) && AreSources(segs, conns, rates, units, src)
    ensures forall i :: 0 <= i < |src| ==>
      Part(src[i], phase) == -(Factor(units, phase) * ReportedIn(segs, conns, rates, phase, i))
    ensures PartSum(src, phase) == -(Factor(units, phase) * AllReported(conns, rates, phase))
  {
    hide SegmentTerms, ReportedIn, Factor, AllTerms, AllReported, Part;
    forall i | 0 <= i < |src|
      ensures Part(src[i], phase) == -(Factor(units, phase) * ReportedIn(segs, conns, rates, phase, i))
    {
      SourceIsReported(segs, conns, rates, units, phase, i);
    }
    SourcesAddUp(segs, conns, rates, units, src);
    SumInParts(src, phase);
    TermsAreReported(conns, rates, units, phase);
  }

  // ------------------------------------------------------------------
  // Accumulated rates

  /** The sum of the sources of a subtree. */
  ghost function Subtree(segs: seq<Segment>, h: seq<nat>, src: seq<Flow>, i: nat): Flow
    requires Unique(segs) && Ranked(segs, h) && i < |segs| && |src| == |segs|
    decreases h[i], 1, 0
  {
    InflowsOf(segs, i);
    Plus(src[i], Subtrees(segs, h, src, i, Inflow(segs, i)))
  }

  ghost function Subtrees(segs: seq<Segment>, h: seq<nat>, src: seq<Flow>, i: nat, list: seq<nat>): Flow
    requires Unique(segs) && Ranked(segs, h) && i < |segs| && |src| == |segs| && Inflows(segs, i, list)
    decreases h[i], 0, |list|
  {
    if list == [] then ZERO
    else Plus(Subtrees(segs, h, src, i, list[..|list| - 1]), Subtree(segs, h, src, list[|list| - 1]))
  }

  /** The rates after visiting some segments: each adds its source and the rates
      its inflows have by then. */
  function Walk(segs: seq<Segment>, src: seq<Flow>, visit: seq<nat>): (rate: seq<Flow>)
    requires |src| == |segs| && InRange(segs, visit)
    ensures |rate| == |segs|
  {
    if visit == [] then seq(|segs|, _ => ZERO)
    else
      var rate := Walk(segs, src, visit[..|visit| - 1]);
      var x := visit[|visit| - 1];
      InflowInRange(segs, x);
      rate[x := Plus(Plus(rate[x], src[x]), SumOver(Inflow(segs, x), rate))]
  }

  /** getSegmentSetFlowRates from the source terms on, in one array of flows. */
  method GetSegmentSetFlowRates(segs: seq<Segment>, src: seq<Flow>, ghost h: seq<nat>)
    returns (rate: seq<Flow>, ghost visit: seq<nat>)
    requires Well(segs, h) && |src| == |segs|
    ensures IsInverse(Order(segs, h, 0), visit) && Permutation(visit, |segs|) && |visit| == |segs|
    ensures InRange(segs, visit) && rate == Walk(segs, src, visit)
  {
    hide Well, Order, InflowFirst, Below, IsInverse, Permutation, Walk, SumOver;
    WellOrder(segs, h);
    WellIsTree(segs, h);
    var orderedSegmentInd := SegmentOrder(segs, 0, h);
    var sNFOSN := SegmentIndFromOrderedSegmentInd(segs, orderedSegmentInd);
    InverseBack(orderedSegmentInd, sNFOSN);
    visit := sNFOSN;
    PermutationWithin(visit, |segs|);
    rate := seq(|segs|, _ => ZERO);
    WalkNone(segs, src, visit[..0]);
    for indOSN := 0 to |sNFOSN|
      invariant rate == Walk(segs, src, visit[..indOSN])
    {
      var segInd := sNFOSN[indOSN];
      assert visit[..indOSN + 1][..indOSN] == visit[..indOSN];
      WalkMore(segs, src, visit[..indOSN + 1], rate);
      rate := AddInflow(segs, src, segInd, rate, h);
    }
    assert visit[..|visit|] == visit;
  }

  lemma WalkNone(segs: seq<Segment>, src: seq<Flow>, visit: seq<nat>)
    requires |src| == |segs| && visit == []
    ensures Walk(segs, src, visit) == seq(|segs|, _ => ZERO)
  {}

  lemma {:induction false} WalkMore(segs: seq<Segment>, src: seq<Flow>, visit: seq<nat>, rate: seq<Flow>)
    requires |src| == |segs| && InRange(segs, visit) && visit != []
    requires rate == Walk(segs, src, visit[..|visit| - 1])
    ensures var x := visit[|visit| - 1];
      InRange(segs, Inflow(segs, x)) && Within(Inflow(segs, x), |rate|)
      && Walk(segs, src, visit) == rate[x := Plus(Plus(rate[x], src[x]), SumOver(Inflow(segs, x), rate))]
  {
    InflowInRange(segs, visit[|visit| - 1]);
  }

  /** The body of the loop: the source and the rates of the inlets are added. */
  method AddInflow(segs: seq<Segment>, src: seq<Flow>, x: nat, rate0: seq<Flow>, ghost h: seq<nat>)
    returns (rate: seq<Flow>)
    requires Tree(segs, h) && x < |segs| && |src| == |segs| == |rate0|
    ensures Within(Inflow(segs, x), |rate0|)
    ensures rate == rate0[x := Plus(Plus(rate0[x], src[x]), SumOver(Inflow(segs, x), rate0))]
  {
    InflowInRange(segs, x);
    InflowIs(segs, x);
    var inlets := Inflow(segs, x);
    rate := rate0[x := Plus(rate0[x], src[x])];
    for k := 0 to |inlets|
      invariant rate == rate0[x := Plus(Plus(rate0[x], src[x]), SumOver(inlets[..k], rate0))]
    {
      var ifSegInd := IndexOf(segs, segs[inlets[k]].number);
      assert ifSegInd == inlets[k];
      assert inlets[k] in inlets && ifSegInd != x;
      assert inlets[..k + 1][..k] == inlets[..k];
      rate := rate[x := Plus(rate[x], rate[ifSegInd])];
    }
    assert inlets[..|inlets|] == inlets;
  }

  // ------------------------------------------------------------------
  // When the rates are right

  lemma {:induction false} SubtreesAre(segs: seq<Segment>, h: seq<nat>, src: seq<Flow>, i: nat, list: seq<nat>,
                                       rate: seq<Flow>)
    requires Unique(segs) && Ranked(segs, h) && i < |segs| && |src| == |segs| == |rate| && Inflows(segs, i, list)
    requires forall k :: 0 <= k < |list| ==> rate[list[k]] == Subtree(segs, h, src, list[k])
    ensures SumOver(list, rate) == Subtrees(segs, h, src, i, list)
    decreases |list|
  {
    if list != [] {
      SubtreesAre(segs, h, src, i, list[..|list| - 1], rate);
    }
  }

  // After the inflow-first visit of some segments, each has its subtree sum and
  // the others have nothing.
  lemma {:induction false} WalkRight(segs: seq<Segment>, h: seq<nat>, src: seq<Flow>, visit: seq<nat>, n: nat)
    requires Unique(segs) && Ranked(segs, h) && |src| == |segs|
    requires Permutation(visit, |segs|) && InflowFirst(segs, visit) && n <= |visit|
    ensures forall k :: 0 <= k < n ==> Walk(segs, src, visit[..n])[visit[k]] == Subtree(segs, h, src, visit[k])
    ensures forall k :: n <= k < |visit| ==> Walk(segs, src, visit[..n])[visit[k]] == ZERO
    decreases n
  {
    hide Subtree, Subtrees, Walk, SumOver, Inflow, Unique, Ranked;
    PermutationWithin(visit, |segs|);
    if n == 0 {
      WalkNone(segs, src, visit[..n]);
    } else {
      var x := visit[n - 1];
      var before, list := Walk(segs, src, visit[..n - 1]), Inflow(segs, x);
      WalkRight(segs, h, src, visit, n - 1);
      assert visit[..n][..n - 1] == visit[..n - 1];
      InflowsOf(segs, x);
      InflowsRight(segs, h, src, visit, n - 1, list, before);
      SubtreesAre(segs, h, src, x, list, before);
      WalkMore(segs, src, visit[..n], before);
      SubtreeRound(segs, h, src, x);
      assert before[x] == ZERO;
    }
  }

  lemma {:induction false} SubtreeRound(segs: seq<Segment>, h: seq<nat>, src: seq<Flow>, i: nat)
    requires Unique(segs) && Ranked(segs, h) && i < |segs| && |src| == |segs|
    ensures Inflows(segs, i, Inflow(segs, i))
    ensures Subtree(segs, h, src, i) == Plus(src[i], Subtrees(segs, h, src, i, Inflow(segs, i)))
  {
    InflowsOf(segs, i);
  }

  // The inflows of the next segment have been visited.
  lemma {:induction false} InflowsRight(segs: seq<Segment>, h: seq<nat>, src: seq<Flow>, visit: seq<nat>, n: nat,
                                        list: seq<nat>, rate: seq<Flow>)
    requires Unique(segs) && Ranked(segs, h) && |src| == |segs| == |rate|
    requires Permutation(visit, |segs|) && InflowFirst(segs, visit) && n < |visit|
    requires Inflows(segs, visit[n], list)
    requires forall k :: 0 <= k < n ==> rate[visit[k]] == Subtree(segs, h, src, visit[k])
    ensures forall k :: 0 <= k < |list| ==> rate[list[k]] == Subtree(segs, h, src, list[k])
  {
    hide Subtree, Inflow, Unique, Ranked;
    forall k | 0 <= k < |list| ensures rate[list[k]] == Subtree(segs, h, src, list[k]) {
      assert list[k] in visit;
      var a :| 0 <= a < |visit| && visit[a] == list[k];
      assert Outlet(segs, visit[a]) == visit[n];
    }
  }

  // ------------------------------------------------------------------
  // A subtree sum is the sum over the segments of the subtree

  lemma {:induction false} OrderWithin(segs: seq<Segment>, h: seq<nat>, i: nat)
    requires Unique(segs) && Ranked(segs, h) && i < |segs|
    ensures Within(Order(segs, h, i), |segs|)
  {
    hide Order;
    OrderInRange(segs, h, i);
    var list := Order(segs, h, i);
    assert forall k :: 0 <= k < |list| ==> list[k] in list;
  }

  lemma {:induction false} SubtreeIsSum(segs: seq<Segment>, h: seq<nat>, src: seq<Flow>, i: nat)
    requires Unique(segs) && Ranked(segs, h) && i < |segs| && |src| == |segs|
    ensures Within(Order(segs, h, i), |src|)
    ensures SumOver(Order(segs, h, i), src) == Subtree(segs, h, src, i)
    decreases h[i], 1, 0
  {
    hide Visited, SumOver, Subtrees, Orders, Inflow;
    OrderWithin(segs, h, i);
    VisitedIs(segs, i);
    InflowsOf(segs, i);
    OrdersSum(segs, h, src, i, Visited(segs, i));
    VisitedSum(segs, h, src, i);
    SumOverOne(i, src);
    SumOverConcat(Orders(segs, h, i, Visited(segs, i)), [i], src);
  }

  lemma {:induction false} OrdersSum(segs: seq<Segment>, h: seq<nat>, src: seq<Flow>, i: nat, list: seq<nat>)
    requires Unique(segs) && Ranked(segs, h) && i < |segs| && |src| == |segs| && Inflows(segs, i, list)
    ensures Within(Orders(segs, h, i, list), |src|)
    ensures SumOver(Orders(segs, h, i, list), src) == Subtrees(segs, h, src, i, list)
    decreases h[i], 0, |list|
  {
    hide Order, Subtree;
    if list != [] {
      var init, c := list[..|list| - 1], list[|list| - 1];
      OrdersSum(segs, h, src, i, init);
      SubtreeIsSum(segs, h, src, c);
      SumOverConcat(Orders(segs, h, i, init), Order(segs, h, c), src);
    }
  }

  // The order in which the inflows are taken does not change their sum.
  lemma {:induction false} VisitedSum(segs: seq<Segment>, h: seq<nat>, src: seq<Flow>, i: nat)
    requires Unique(segs) && Ranked(segs, h) && i < |segs| && |src| == |segs|
    ensures Inflows(segs, i, Visited(segs, i)) && Inflows(segs, i, Inflow(segs, i))
    ensures Subtrees(segs, h, src, i, Visited(segs, i)) == Subtrees(segs, h, src, i, Inflow(segs, i))
  {
    hide Inflow, Subtrees, Select;
    VisitedIs(segs, i);
    InflowsOf(segs, i);
    var b := segs[i].branch;
    SelectSum(segs, h, src, i, Inflow(segs, i), b);
  }

  lemma {:induction false} SelectSum(segs: seq<Segment>, h: seq<nat>, src: seq<Flow>, i: nat, list: seq<nat>, b: int)
    requires Unique(segs) && Ranked(segs, h) && i < |segs| && |src| == |segs| && Inflows(segs, i, list)
    ensures InRange(segs, list)
    ensures var r := Select(segs, list, b, false) + Select(segs, list, b, true);
      Inflows(segs, i, r) && Subtrees(segs, h, src, i, r) == Subtrees(segs, h, src, i, list)
    decreases |list|
  {
    hide Subtree, Subtrees, Inflows, Unique, Ranked;
    SelectInflows(segs, i, list, b, false);
    SelectInflows(segs, i, list, b, true);
    if list == [] {
      assert Select(segs, list, b, false) + Select(segs, list, b, true) == list;
    } else {
      hide Select;
      var n := |list| - 1;
      var init, c := list[..n], list[n];
      InflowsPrefix(segs, i, list, n);
      InflowsLast(segs, i, list);
      SelectSum(segs, h, src, i, init, b);
      var s, m := Select(segs, init, b, false), Select(segs, init, b, true);
      SelectInflows(segs, i, init, b, false);
      SelectInflows(segs, i, init, b, true);
      assert list[..n + 1] == list && init + [c] == list;
      SelectMore(segs, list, n, b, false);
      SelectMore(segs, list, n, b, true);
      SubtreesConcat(segs, h, src, i, init, [c]);
      MoveSum(segs, h, src, i, s, m, c);
      assert s + [] == s && m + [] == m;
    }
  }

  lemma InflowsLast(segs: seq<Segment>, i: nat, list: seq<nat>)
    requires Inflows(segs, i, list) && list != []
    ensures Inflows(segs, i, [list[|list| - 1]])
  {}

  lemma {:induction false} MoveSum(segs: seq<Segment>, h: seq<nat>, src: seq<Flow>, i: nat, s: seq<nat>, m: seq<nat>,
                                   c: nat)
    requires Unique(segs) && Ranked(segs, h) && i < |segs| && |src| == |segs|
    requires Inflows(segs, i, s) && Inflows(segs, i, m) && Inflows(segs, i, [c])
    ensures Inflows(segs, i, s + m) && Inflows(segs, i, (s + [c]) + m) && Inflows(segs, i, s + (m + [c]))
    ensures var all := Plus(Subtrees(segs, h, src, i, s + m), Subtrees(segs, h, src, i, [c]));
      Subtrees(segs, h, src, i, (s + [c]) + m) == all && Subtrees(segs, h, src, i, s + (m + [c])) == all
  {
    hide Subtrees, Inflows, Unique, Ranked;
    SubtreesConcat(segs, h, src, i, s, m);
    SubtreesConcat(segs, h, src, i, s, [c]);
    SubtreesConcat(segs, h, src, i, m, [c]);
    SubtreesConcat(segs, h, src, i, s + [c], m);
    SubtreesConcat(segs, h, src, i, s, m + [c]);
  }

  lemma {:induction false} SubtreesConcat(segs: seq<Segment>, h: seq<nat>, src: seq<Flow>, i: nat, a: seq<nat>,
                                          b: seq<nat>)
    requires Unique(segs) && Ranked(segs, h) && i < |segs| && |src| == |segs|
    requires Inflows(segs, i, a) && Inflows(segs, i, b)
    ensures Inflows(segs, i, a + b)
    ensures Subtrees(segs, h, src, i, a + b) == Plus(Subtrees(segs, h, src, i, a), Subtrees(segs, h, src, i, b))
    decreases |b|
  {
    hide Subtree;
    if b == [] {
      assert a + b == a;
    } else {
      assert (a + b)[..|a + b| - 1] == a + b[..|b| - 1];
      SubtreesConcat(segs, h, src, i, a, b[..|b| - 1]);
    }
  }

  // ------------------------------------------------------------------
  // When the rates are wrong

  /** One unit of oil in one segment. */
  function Unit(n: nat, c: nat): (src: seq<Flow>)
    ensures |src| == n
  {
    seq(n, x => if x == c then Flow(1.0, 0.0, 0.0) else ZERO)
  }

  lemma {:induction false} SumOfNothing(list: seq<nat>, rate: seq<Flow>)
    requires Within(list, |rate|) && forall k :: 0 <= k < |list| ==> rate[list[k]] == ZERO
    ensures SumOver(list, rate) == ZERO
  {
    if list != [] {
      SumOfNothing(list[..|list| - 1], rate);
    }
  }

  // What is in c shows in no segment that c is not below, nor in c before its visit.
  lemma {:induction false} NothingElsewhere(segs: seq<Segment>, h: seq<nat>, c: nat, visit: seq<nat>, x: nat)
    requires Unique(segs) && Ranked(segs, h) && c < |segs| && x < |segs| && InRange(segs, visit)
    requires !Below(segs, h, c, x) || (x == c && c !in visit)
    ensures Walk(segs, Unit(|segs|, c), visit)[x] == ZERO
    decreases |visit|
  {
    var src := Unit(|segs|, c);
    if visit != [] {
      var init, v := visit[..|visit| - 1], visit[|visit| - 1];
      NothingElsewhere(segs, h, c, init, x);
      if v == x {
        assert x in visit;
        InflowsOf(segs, x);
        var list, before := Inflow(segs, x), Walk(segs, src, init);
        forall k | 0 <= k < |list| ensures before[list[k]] == ZERO {
          if Below(segs, h, c, list[k]) {
            BelowStep(segs, h, c, list[k], x);
          }
          NothingElsewhere(segs, h, c, init, list[k]);
        }
        SumOfNothing(list, before);
      }
    }
  }

  // An inflow that is visited after its outlet is missing there at the end.
  lemma {:induction false} LateInflow(segs: seq<Segment>, h: seq<nat>, visit: seq<nat>, p: nat, a: nat)
    requires Unique(segs) && Ranked(segs, h) && InRange(segs, visit) && NoRepeats(visit)
    requires p <= a < |visit| && Outlet(segs, visit[a]) == visit[p]
    ensures Walk(segs, Unit(|segs|, visit[a]), visit)[visit[p]] == ZERO
  {
    var c, x := visit[a], visit[p];
    var src := Unit(|segs|, c);
    assert h[c] < h[x];
    var before := Walk(segs, src, visit[..p]);
    var list := Inflow(segs, x);
    InflowsOf(segs, x);
    assert c !in visit[..p];
    forall k | 0 <= k < |list| ensures before[list[k]] == ZERO {
      if Below(segs, h, c, list[k]) {
        BelowOne(segs, h, c, c, list[k]);
      }
      NothingElsewhere(segs, h, c, visit[..p], list[k]);
    }
    SumOfNothing(list, before);
    NotYet(segs, src, visit, p);
    assert visit[..p + 1][..p] == visit[..p];
    assert Walk(segs, src, visit[..p + 1])[x] == ZERO;
    NoLonger(segs, src, visit, p, |visit|);
    assert visit[..|visit|] == visit;
  }

  lemma {:induction false} NotYet(segs: seq<Segment>, src: seq<Flow>, visit: seq<nat>, p: nat)
    requires |src| == |segs| && InRange(segs, visit) && NoRepeats(visit) && p < |visit|
    ensures Walk(segs, src, visit[..p])[visit[p]] == ZERO
  {
    NotVisited(segs, src, visit[..p], visit[p]);
  }

  lemma {:induction false} NotVisited(segs: seq<Segment>, src: seq<Flow>, visit: seq<nat>, x: nat)
    requires |src| == |segs| && InRange(segs, visit) && x < |segs| && x !in visit
    ensures Walk(segs, src, visit)[x] == ZERO
    decreases |visit|
  {
    if visit != [] {
      assert visit[|visit| - 1] in visit;
      NotVisited(segs, src, visit[..|visit| - 1], x);
    }
  }

  // A rate does not change after its segment's visit.
  lemma {:induction false} NoLonger(segs: seq<Segment>, src: seq<Flow>, visit: seq<nat>, p: nat, n: nat)
    requires |src| == |segs| && InRange(segs, visit) && NoRepeats(visit) && p < n <= |visit|
    ensures Walk(segs, src, visit[..n])[visit[p]] == Walk(segs, src, visit[..p + 1])[visit[p]]
    decreases n
  {
    if n > p + 1 {
      NoLonger(segs, src, visit, p, n - 1);
      assert visit[..n][..n - 1] == visit[..n - 1];
    }
  }

  lemma {:induction false} UnitBelow(segs: seq<Segment>, h: seq<nat>, c: nat, x: nat)
    requires Unique(segs) && Ranked(segs, h) && c < |segs| && x < |segs|
    ensures Subtree(segs, h, Unit(|segs|, c), x).oil >= (if x == c then 1.0 else 0.0)
    ensures Outlet(segs, c) == x ==> Subtree(segs, h, Unit(|segs|, c), x).oil >= 1.0
    decreases h[x], 1, 0
  {
    InflowsOf(segs, x);
    hide Subtrees;
    UnitsBelow(segs, h, c, x, Inflow(segs, x));
    InflowIs(segs, x);
  }

  lemma {:induction false} UnitsBelow(segs: seq<Segment>, h: seq<nat>, c: nat, x: nat, list: seq<nat>)
    requires Unique(segs) && Ranked(segs, h) && c < |segs| && x < |segs| && Inflows(segs, x, list)
    ensures Subtrees(segs, h, Unit(|segs|, c), x, list).oil >= (if c in list then 1.0 else 0.0)
    decreases h[x], 0, |list|
  {
    hide Subtree;
    if list != [] {
      UnitsBelow(segs, h, c, x, list[..|list| - 1]);
      UnitBelow(segs, h, c, list[|list| - 1]);
    }
  }

  /** Whatever the sources, every segment ends with the sum of its subtree. */
  ghost predicate RatesRight(segs: seq<Segment>, h: seq<nat>, visit: seq<nat>)
    requires Unique(segs) && Ranked(segs, h) && InRange(segs, visit)
  {
    forall src: seq<Flow>, x: nat :: |src| == |segs| && x < |segs| ==>
      Walk(segs, src, visit)[x] == Subtree(segs, h, src, x)
  }

  // The rates are the subtree sums if and only if every inflow is visited before its outlet.
  lemma {:induction false} RatesRightIff(segs: seq<Segment>, h: seq<nat>, visit: seq<nat>)
    requires Unique(segs) && Ranked(segs, h) && Permutation(visit, |segs|)
    ensures InRange(segs, visit)
    ensures RatesRight(segs, h, visit) <==> InflowFirst(segs, visit)
  {
    hide Walk, Subtree;
    PermutationWithin(visit, |segs|);
    if InflowFirst(segs, visit) {
      forall src: seq<Flow>, x: nat | |src| == |segs| && x < |segs|
        ensures Walk(segs, src, visit)[x] == Subtree(segs, h, src, x)
      {
        WalkRight(segs, h, src, visit, |visit|);
        assert visit[..|visit|] == visit;
        assert x in visit;
      }
    } else {
      var a, p :| 0 <= a < |visit| && 0 <= p < |visit| && Outlet(segs, visit[a]) == visit[p] && p <= a;
      LateInflow(segs, h, visit, p, a);
      UnitBelow(segs, h, visit[a], visit[p]);
      assert Walk(segs, Unit(|segs|, visit[a]), visit)[visit[p]] != Subtree(segs, h, Unit(|segs|, visit[a]), visit[p]);
    }
  }

  // The rates of a well are right if and only if the inverse of its order is
  // inflow-first, which it is when the order is its own inverse.
  lemma {:induction false} WellRatesRight(segs: seq<Segment>, h: seq<nat>, visit: seq<nat>)
    requires Well(segs, h) && IsInverse(Order(segs, h, 0), visit)
    ensures InRange(segs, visit) && Permutation(visit, |segs|)
    ensures RatesRight(segs, h, visit) <==> InflowFirst(segs, visit)
    ensures visit == Order(segs, h, 0) ==> RatesRight(segs, h, visit)
  {
    hide Order, RatesRight, InflowFirst;
    WellOrder(segs, h);
    InverseBack(Order(segs, h, 0), visit);
    RatesRightIff(segs, h, visit);
  }

  // When the rates are right, each is minus the factor times what is reported in the
  // segments of its subtree.
  lemma {:induction false} RatesInReported(segs: seq<Segment>, h: seq<nat>, conns: seq<Connection>, rates: seq<Rates>,
                                           units: Units, src: seq<Flow>, visit: seq<nat>, x: nat, phase: Phase)
    requires Unique(segs) && Ranked(segs, h) && AreSources(segs, conns, rates, units, src)
    requires Permutation(visit, |segs|) && InflowFirst(segs, visit) && x < |segs|
    ensures InRange(segs, visit)
    ensures Part(Walk(segs, src, visit)[x], phase)
         == -(Factor(units, phase) * ReportedOver(Order(segs, h, x), segs, conns, rates, phase))
  {
    hide Order, Walk, Subtree, InflowFirst, Part, Factor, ReportedOver, SumOver;
    RatesRightIff(segs, h, visit);
    SubtreeIsSum(segs, h, src, x);
    SumOverReported(Order(segs, h, x), segs, conns, rates, units, src, phase);
  }

  // What the connections take in leaves at the top, when the rates are right.
  lemma {:induction false} Conservation(segs: seq<Segment>, h: seq<nat>, conns: seq<Connection>, rates: seq<Rates>,
                                        units: Units, src: seq<Flow>, visit: seq<nat>, phase: Phase)
    requires Well(segs, h) && Placed(segs, conns, rates) && AreSources(segs, conns, rates, units, src)
    requires Permutation(visit, |segs|) && InflowFirst(segs, visit)
    ensures InRange(segs, visit)
    ensures Part(Walk(segs, src, visit)[0], phase) == -(Factor(units, phase) * AllReported(conns, rates, phase))
  {
    hide Order, Walk, Subtree, InflowFirst, Part, Factor, AllReported, AllTerms;
    RatesRightIff(segs, h, visit);
    WellOrder(segs, h);
    PermutationSum(Order(segs, h, 0), src);
    SubtreeIsSum(segs, h, src, 0);
    SourcesAddUp(segs, conns, rates, units, src);
    TermsAreReported(conns, rates, units, phase);
  }

  // ------------------------------------------------------------------
  // A well for which the rates are wrong

  /** The top segment, a side branch into it, and the next segment of its own branch. */
  const FORK: seq<Segment> := [Segment(1, 1, 0), Segment(2, 2, 1), Segment(3, 1, 1)]

  const FORK_RANK: seq<nat> := [1, 0, 0]

  lemma {:induction false} ForkOutlets(segs: seq<Segment>)
    requires segs == FORK
    ensures |segs| == 3 && Unique(segs)
    ensures Outlet(segs, 0) == -1 && Outlet(segs, 1) == 0 && Outlet(segs, 2) == 0
  {
    assert segs[..2] == [Segment(1, 1, 0), Segment(2, 2, 1)];
    assert segs[..2][..1] == [Segment(1, 1, 0)];
    assert segs[..2][..1][..0] == [];
  }

  lemma {:induction false} ForkWell(segs: seq<Segment>, h: seq<nat>)
    requires segs == FORK && h == FORK_RANK
    ensures Unique(segs) && Ranked(segs, h) && Well(segs, h)
  {
    ForkOutlets(segs);
  }

  // Three segments of which the last two flow into the first, one on its branch.
  lemma {:induction false} ThreeInflow(segs: seq<Segment>, i: nat)
    requires |segs| == 3 && i < 3
    ensures segs[0].outlet != segs[i].number && segs[1].outlet != segs[i].number && segs[2].outlet != segs[i].number ==>
      Inflow(segs, i) == []
    ensures segs[0].outlet != segs[i].number && segs[1].outlet == segs[i].number && segs[2].outlet == segs[i].number ==>
      Inflow(segs, i) == [1, 2]
  {
    assert InflowUpTo(segs, i, 3)
        == InflowUpTo(segs, i, 2) + if segs[2].outlet == segs[i].number then [2] else [];
    assert InflowUpTo(segs, i, 2)
        == InflowUpTo(segs, i, 1) + if segs[1].outlet == segs[i].number then [1] else [];
    assert InflowUpTo(segs, i, 0) == [];
  }

  lemma {:induction false} SelectPair(segs: seq<Segment>, branch: int, on: bool)
    requires |segs| == 3 && segs[1].branch != branch && segs[2].branch == branch
    ensures Select(segs, [1, 2], branch, on) == if on then [2] else [1]
    ensures Select(segs, [], branch, on) == []
  {
    assert [1, 2][..1] == [1] && [1, 2][..2] == [1, 2] && [1, 2][..0] == [];
    SelectMore(segs, [1, 2], 0, branch, on);
    SelectMore(segs, [1, 2], 1, branch, on);
  }

  lemma {:induction false} ForkVisited(segs: seq<Segment>)
    requires segs == FORK
    ensures |segs| == 3 && Visited(segs, 0) == [1, 2] && Visited(segs, 1) == [] && Visited(segs, 2) == []
  {
    hide Inflow, Select, FORK, InRange;
    ForkIs(segs);
    ThreeInflow(segs, 0);
    ThreeInflow(segs, 1);
    ThreeInflow(segs, 2);
    SelectPair(segs, 1, true);
    SelectPair(segs, 1, false);
    SelectNone(segs, 2, true);
    SelectNone(segs, 2, false);
    assert [1] + [2] == [1, 2];
  }

  lemma ForkIs(segs: seq<Segment>)
    requires segs == FORK
    ensures |segs| == 3
    ensures segs[0] == Segment(1, 1, 0) && segs[1] == Segment(2, 2, 1) && segs[2] == Segment(3, 1, 1)
  {}

  lemma SelectNone(segs: seq<Segment>, branch: int, on: bool)
    ensures Select(segs, [], branch, on) == []
  {}

  lemma LeafOrder(segs: seq<Segment>, h: seq<nat>, i: nat)
    requires Unique(segs) && Ranked(segs, h) && i < |segs| && Visited(segs, i) == []
    ensures Order(segs, h, i) == [i]
  {}

  lemma {:induction false} ForkOrder(segs: seq<Segment>, h: seq<nat>)
    requires segs == FORK && h == FORK_RANK
    ensures Unique(segs) && Ranked(segs, h) && |segs| == 3
    ensures Order(segs, h, 0) == [1, 2, 0]
  {
    hide Order, Orders, Visited, Unique, Ranked, FORK, FORK_RANK, Well, Below, OneMain;
    ForkIs(segs);
    ForkWell(segs, h);
    ForkVisited(segs);
    LeafOrder(segs, h, 1);
    LeafOrder(segs, h, 2);
    TwoOrders(segs, h, 0, 1, 2);
  }

  lemma {:induction false} TwoOrders(segs: seq<Segment>, h: seq<nat>, i: nat, a: nat, b: nat)
    requires Unique(segs) && Ranked(segs, h) && i < |segs| && Visited(segs, i) == [a, b]
    ensures a < |segs| && b < |segs|
    ensures Order(segs, h, i) == Order(segs, h, a) + Order(segs, h, b) + [i]
  {
    hide Visited;
    VisitedIs(segs, i);
    assert [] + [a] == [a] && [a] + [b] == [a, b];
    assert Order(segs, h, i) == Orders(segs, h, i, [a, b]) + [i];
    assert Orders(segs, h, i, []) == [];
    hide Order, Orders;
    assert [a, b][0] == a && [a, b][1] == b;
    OrdersMore(segs, h, i, [a], b);
    OrdersMore(segs, h, i, [], a);
  }

  // The order of the fork is side, branch, top; its inverse visits the top
  // before the side branch, so what flows in there is missing at the top.
  lemma {:induction false} ForkLosesInflow(segs: seq<Segment>, h: seq<nat>, visit: seq<nat>)
    requires segs == FORK && h == FORK_RANK && visit == [2, 0, 1]
    ensures Well(segs, h) && IsInverse(Order(segs, h, 0), visit)
    ensures InRange(segs, visit) && !RatesRight(segs, h, visit)
  {
    hide Order, RatesRight, Well, Outlet, Unique, Ranked, FORK, FORK_RANK;
    ForkWell(segs, h);
    ForkOrder(segs, h);
    ForkOutlets(segs);
    assert Outlet(segs, visit[2]) == visit[1];
    WellRatesRight(segs, h, visit);
  }
}
