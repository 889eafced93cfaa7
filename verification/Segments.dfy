// The segments of a multisegment well and the order in which the restart file
// lists them: from the toes of the branches to the heel.

module Segments {

  datatype Segment = Segment(number: int, branch: int, outlet: int)

  /** segmentNumberToIndex. */
  function IndexOf(segs: seq<Segment>, number: int): (i: int)
    ensures -1 <= i < |segs|
    ensures i >= 0 ==> segs[i].number == number
    ensures i < 0 ==> forall k :: 0 <= k < |segs| ==> segs[k].number != number
  {
    var n := |segs|;
    if n == 0 then -1
    else if segs[n - 1].number == number then n - 1
    else IndexOf(segs[..n - 1], number)
  }

  /** The index of the segment that a segment flows into, or -1. */
  function Outlet(segs: seq<Segment>, j: nat): (i: int)
    requires j < |segs|
    ensures -1 <= i < |segs|
  {
    IndexOf(segs, segs[j].outlet)
  }

  /** Indices of segments. */
  predicate InRange(segs: seq<Segment>, list: seq<nat>) {
    forall k :: 0 <= k < |list| ==> list[k] < |segs|
  }

  predicate Increasing(s: seq<nat>) {
    forall a, b :: 0 <= a < b < |s| ==> s[a] < s[b]
  }

  /** The segments below n that flow into segment i. */
  function InflowUpTo(segs: seq<Segment>, i: nat, n: nat): (r: seq<nat>)
    requires i < |segs| && n <= |segs|
    ensures forall k :: k in r <==> 0 <= k < n && segs[k].outlet == segs[i].number
    ensures Increasing(r)
  {
    if n == 0 then []
    else
      var r := InflowUpTo(segs, i, n - 1);
      assert forall k :: 0 <= k < |r| ==> r[k] in r;
      if segs[n - 1].outlet == segs[i].number then r + [n - 1] else r
  }

  /** inflowSegmentsIndex. */
  function Inflow(segs: seq<Segment>, i: nat): seq<nat>
    requires i < |segs|
  {
    InflowUpTo(segs, i, |segs|)
  }

  method InflowSegmentsIndex(segs: seq<Segment>, i: nat) returns (r: seq<nat>)
    requires i < |segs|
    ensures r == Inflow(segs, i)
  {
    r := [];
    for ind := 0 to |segs|
      invariant r == InflowUpTo(segs, i, ind)
    {
      if segs[i].number == segs[ind].outlet {
        r := r + [ind];
      }
    }
  }

  // ------------------------------------------------------------------
  // Well-formed sets

  ghost predicate Unique(segs: seq<Segment>) {
    forall i, j :: 0 <= i < j < |segs| ==> segs[i].number != segs[j].number
  }

  /** No segment flows into itself: h falls from every segment to its inflows. */
  ghost predicate Ranked(segs: seq<Segment>, h: seq<nat>) {
    |h| == |segs| && forall j :: 0 <= j < |segs| && Outlet(segs, j) >= 0 ==> h[j] < h[Outlet(segs, j)]
  }

  /** At most one inflow of a segment is on the segment's own branch. */
  ghost predicate OneMain(segs: seq<Segment>) {
    forall a, b :: 0 <= a < b < |segs| && Outlet(segs, a) == Outlet(segs, b) >= 0 ==>
      !(segs[a].branch == segs[b].branch == segs[Outlet(segs, a)].branch)
  }

  ghost predicate Tree(segs: seq<Segment>, h: seq<nat>) {
    |h| == |segs| && Unique(segs) && Ranked(segs, h) && OneMain(segs)
  }

  lemma OutletIs(segs: seq<Segment>, i: nat, j: nat)
    requires Unique(segs) && i < |segs| && j < |segs|
    ensures segs[j].outlet == segs[i].number <==> Outlet(segs, j) == i
  {}

  lemma {:induction false} InflowIs(segs: seq<Segment>, i: nat)
    requires Unique(segs) && i < |segs|
    ensures forall j :: 0 <= j < |segs| ==> (j in Inflow(segs, i) <==> Outlet(segs, j) == i)
    ensures forall j <- Inflow(segs, i) :: j < |segs| && Outlet(segs, j) == i
  {
    forall j | 0 <= j < |segs| ensures j in Inflow(segs, i) <==> Outlet(segs, j) == i {
      OutletIs(segs, i, j);
    }
  }

  lemma {:induction false} InflowInRange(segs: seq<Segment>, i: nat)
    requires i < |segs|
    ensures InRange(segs, Inflow(segs, i))
  {
    var r := Inflow(segs, i);
    assert forall k :: 0 <= k < |r| ==> r[k] in r;
  }

  // ------------------------------------------------------------------
  // Subtrees

  /** Following outlets from j leads to i. */
  ghost predicate Below(segs: seq<Segment>, h: seq<nat>, j: nat, i: nat)
    requires Ranked(segs, h) && j < |segs| && i < |segs|
    ensures Below(segs, h, j, i) ==> h[j] <= h[i] && (h[j] == h[i] ==> j == i)
    decreases h[i] as int - h[j] as int
  {
    j == i || (h[j] < h[i] && Outlet(segs, j) >= 0 && h[Outlet(segs, j)] <= h[i] && Below(segs, h, Outlet(segs, j), i))
  }

  // What is below an inflow is below the segment.
  lemma {:induction false} BelowStep(segs: seq<Segment>, h: seq<nat>, j: nat, c: nat, i: nat)
    requires Ranked(segs, h) && j < |segs| && c < |segs| && i < |segs|
    requires Below(segs, h, j, c) && Outlet(segs, c) == i
    ensures Below(segs, h, j, i)
    decreases h[c] - h[j]
  {
    if j != c {
      BelowStep(segs, h, Outlet(segs, j), c, i);
    } else {
      assert Below(segs, h, i, i);
    }
  }

  // What is below a segment but for itself is below one of its inflows.
  lemma {:induction false} BelowSplit(segs: seq<Segment>, h: seq<nat>, j: nat, i: nat) returns (c: nat)
    requires Ranked(segs, h) && j < |segs| && i < |segs| && j != i && Below(segs, h, j, i)
    ensures c < |segs| && Outlet(segs, c) == i && Below(segs, h, j, c)
    decreases h[i] - h[j]
  {
    var up := Outlet(segs, j);
    if up == i {
      c := j;
    } else {
      c := BelowSplit(segs, h, up, i);
      assert h[up] <= h[c];
    }
  }

  // A segment is below at most one inflow of another.
  lemma {:induction false} BelowOne(segs: seq<Segment>, h: seq<nat>, x: nat, c: nat, d: nat)
    requires Ranked(segs, h) && x < |segs| && c < |segs| && d < |segs|
    requires Below(segs, h, x, c) && Below(segs, h, x, d) && Outlet(segs, c) == Outlet(segs, d) >= 0
    ensures c == d
    decreases h[c] + h[d] - h[x]
  {
    if x != c && x != d {
      BelowOne(segs, h, Outlet(segs, x), c, d);
    }
  }

  // ------------------------------------------------------------------
  // The order

  /** The segments of a list that are on a branch, or those that are not. */
  function Select(segs: seq<Segment>, list: seq<nat>, branch: int, on: bool): (r: seq<nat>)
    requires InRange(segs, list)
    ensures InRange(segs, r)
    ensures forall j :: j in r <==> j in list && j < |segs| && (segs[j].branch == branch) == on
    ensures Increasing(list) ==> Increasing(r)
  {
    if list == [] then []
    else
      var j := list[|list| - 1];
      var init := Select(segs, list[..|list| - 1], branch, on);
      assert forall k :: 0 <= k < |init| ==> init[k] in init && init[k] in list[..|list| - 1];
      assert list == list[..|list| - 1] + [j];
      assert forall x :: x in list <==> x in list[..|list| - 1] || x == j;
      if (segs[j].branch == branch) == on then init + [j] else init
  }

  /** The inflows of a segment as segmentOrder treats them: other branches first. */
  function Visited(segs: seq<Segment>, i: nat): seq<nat>
    requires i < |segs|
  {
    InflowInRange(segs, i);
    Select(segs, Inflow(segs, i), segs[i].branch, false) + Select(segs, Inflow(segs, i), segs[i].branch, true)
  }

  predicate NoRepeats(s: seq<nat>) {
    forall a, b :: 0 <= a < b < |s| ==> s[a] != s[b]
  }

  /** Segments that flow into i. */
  ghost predicate Inflows(segs: seq<Segment>, i: nat, list: seq<nat>) {
    forall k :: 0 <= k < |list| ==> list[k] < |segs| && Outlet(segs, list[k]) == i
  }

  lemma {:induction false} VisitedIs(segs: seq<Segment>, i: nat)
    requires Unique(segs) && i < |segs|
    ensures forall j :: 0 <= j < |segs| ==> (j in Visited(segs, i) <==> Outlet(segs, j) == i)
    ensures Inflows(segs, i, Visited(segs, i)) && NoRepeats(Visited(segs, i))
  {
    InflowIs(segs, i);
    InflowInRange(segs, i);
    var a := Select(segs, Inflow(segs, i), segs[i].branch, false);
    var b := Select(segs, Inflow(segs, i), segs[i].branch, true);
    assert forall k :: 0 <= k < |a| ==> a[k] in a;
    assert forall k :: 0 <= k < |b| ==> b[k] in b;
  }

  /** The subtree of a segment in the order of segmentOrder. */
  ghost function Order(segs: seq<Segment>, h: seq<nat>, i: nat): seq<nat>
    requires Unique(segs) && Ranked(segs, h) && i < |segs|
    decreases h[i], 1, 0
  {
    VisitedIs(segs, i);
    Orders(segs, h, i, Visited(segs, i)) + [i]
  }

  /** The orders of some inflows of i, one behind the other. */
  ghost function Orders(segs: seq<Segment>, h: seq<nat>, i: nat, list: seq<nat>): seq<nat>
    requires Unique(segs) && Ranked(segs, h) && i < |segs| && Inflows(segs, i, list)
    decreases h[i], 0, |list|
  {
    if list == [] then []
    else Orders(segs, h, i, list[..|list| - 1]) + Order(segs, h, list[|list| - 1])
  }

  lemma {:induction false} InOrders(segs: seq<Segment>, h: seq<nat>, i: nat, list: seq<nat>, x: nat)
    requires Unique(segs) && Ranked(segs, h) && i < |segs| && Inflows(segs, i, list)
    ensures x in Orders(segs, h, i, list) <==> exists k :: 0 <= k < |list| && x in Order(segs, h, list[k])
    decreases |list|
  {
    hide Order;
    if list != [] {
      var init := list[..|list| - 1];
      InOrders(segs, h, i, init, x);
      assert Orders(segs, h, i, list) == Orders(segs, h, i, init) + Order(segs, h, list[|list| - 1]);
      hide Orders, Unique, Ranked;
      assert forall k :: 0 <= k < |init| ==> list[k] == init[k];
    }
  }

  // The inflow in whose order a segment is found.
  lemma {:induction false} FindOrder(segs: seq<Segment>, h: seq<nat>, i: nat, list: seq<nat>, x: nat) returns (c: nat)
    requires Unique(segs) && Ranked(segs, h) && i < |segs| && Inflows(segs, i, list)
    requires x in Orders(segs, h, i, list)
    ensures c in list && c < |segs| && Outlet(segs, c) == i && h[c] < h[i] && x in Order(segs, h, c)
  {
    hide Order, Orders;
    InOrders(segs, h, i, list, x);
    var k :| 0 <= k < |list| && x in Order(segs, h, list[k]);
    c := list[k];
  }

  // The order lists exactly the subtree.
  lemma {:induction false} OrderCovers(segs: seq<Segment>, h: seq<nat>, i: nat, x: nat)
    requires Unique(segs) && Ranked(segs, h) && i < |segs| && x < |segs|
    ensures x in Order(segs, h, i) <==> Below(segs, h, x, i)
    decreases h[i]
  {
    hide Orders, Visited;
    VisitedIs(segs, i);
    InOrders(segs, h, i, Visited(segs, i), x);
    if x in Orders(segs, h, i, Visited(segs, i)) {
      var c := FindOrder(segs, h, i, Visited(segs, i), x);
      OrderCovers(segs, h, c, x);
      BelowStep(segs, h, x, c, i);
    }
    if x != i && Below(segs, h, x, i) {
      var c := BelowSplit(segs, h, x, i);
      OrderCovers(segs, h, c, x);
      assert c in Visited(segs, i);
    }
  }

  lemma {:induction false} OrderInRange(segs: seq<Segment>, h: seq<nat>, i: nat)
    requires Unique(segs) && Ranked(segs, h) && i < |segs|
    ensures forall x <- Order(segs, h, i) :: x < |segs|
    decreases h[i]
  {
    hide Orders, Visited;
    VisitedIs(segs, i);
    forall x | x in Orders(segs, h, i, Visited(segs, i)) ensures x < |segs| {
      var c := FindOrder(segs, h, i, Visited(segs, i), x);
      OrderInRange(segs, h, c);
    }
  }

  /** Every segment stands behind its inflows. */
  ghost predicate InflowFirst(segs: seq<Segment>, visit: seq<nat>) {
    && InRange(segs, visit)
    && forall a, b :: 0 <= a < |visit| && 0 <= b < |visit| && Outlet(segs, visit[a]) == visit[b] ==> a < b
  }

  lemma {:induction false} NoRepeatsConcat(a: seq<nat>, b: seq<nat>)
    requires NoRepeats(a) && NoRepeats(b) && forall x <- a :: x !in b
    ensures NoRepeats(a + b)
  {
    assert forall k :: 0 <= k < |a| ==> a[k] in a;
  }

  lemma {:induction false} InflowFirstConcat(segs: seq<Segment>, a: seq<nat>, b: seq<nat>)
    requires InflowFirst(segs, a) && InflowFirst(segs, b)
    requires forall x, y :: x in b && y in a ==> x < |segs| && Outlet(segs, x) != y
    ensures InflowFirst(segs, a + b)
  {
    var s := a + b;
    assert InRange(segs, s);
    forall p, q | 0 <= p < |s| && 0 <= q < |s| && Outlet(segs, s[p]) == s[q] ensures p < q {
      assert p >= |a| ==> s[p] == b[p - |a|] && s[p] in b;
      assert q < |a| ==> s[q] == a[q] && s[q] in a;
      if p >= |a| && q >= |a| {
        assert Outlet(segs, b[p - |a|]) == b[q - |a|];
      }
    }
  }

  // Each segment of a subtree is listed once, behind its inflows.
  lemma {:induction false} OrderSorted(segs: seq<Segment>, h: seq<nat>, i: nat)
    requires Unique(segs) && Ranked(segs, h) && i < |segs|
    ensures NoRepeats(Order(segs, h, i)) && InflowFirst(segs, Order(segs, h, i))
    decreases h[i], 1, 0
  {
    hide Orders, Visited, InflowFirst, NoRepeats;
    var list := Visited(segs, i);
    VisitedIs(segs, i);
    OrdersSorted(segs, h, i, list);
    var before := Orders(segs, h, i, list);
    forall y | y in before ensures y < |segs| && h[y] < h[i] {
      var c := FindOrder(segs, h, i, list, y);
      OrderInRange(segs, h, c);
      OrderCovers(segs, h, c, y);
    }
    Single(segs, h, i);
    NoRepeatsConcat(before, [i]);
    InflowFirstConcat(segs, before, [i]);
  }

  lemma Single(segs: seq<Segment>, h: seq<nat>, i: nat)
    requires Ranked(segs, h) && i < |segs|
    ensures NoRepeats([i]) && InflowFirst(segs, [i])
    ensures forall y :: 0 <= y < |segs| && h[y] < h[i] ==> Outlet(segs, i) != y
  {}

  lemma {:induction false} OrdersSorted(segs: seq<Segment>, h: seq<nat>, i: nat, list: seq<nat>)
    requires Unique(segs) && Ranked(segs, h) && i < |segs| && NoRepeats(list) && Inflows(segs, i, list)
    ensures NoRepeats(Orders(segs, h, i, list)) && InflowFirst(segs, Orders(segs, h, i, list))
    decreases h[i], 0, |list|
  {
    hide Order;
    if list != [] {
      var init, c := list[..|list| - 1], list[|list| - 1];
      var a, b := Orders(segs, h, i, init), Order(segs, h, c);
      OrdersSorted(segs, h, i, init);
      OrderSorted(segs, h, c);
      OrderInRange(segs, h, c);
      forall y | y in a ensures y < |segs| && h[y] < h[i] && !Below(segs, h, y, c) {
        var d := FindOrder(segs, h, i, init, y);
        OrderInRange(segs, h, d);
        OrderCovers(segs, h, d, y);
        if Below(segs, h, y, c) {
          BelowOne(segs, h, y, c, d);
        }
      }
      forall x, y | x in b && y in a ensures x != y && Outlet(segs, x) != y {
        OrderCovers(segs, h, c, x);
        OrderCovers(segs, h, c, y);
      }
      NoRepeatsConcat(a, b);
      InflowFirstConcat(segs, a, b);
    }
  }

  // ------------------------------------------------------------------
  // segmentOrder

  lemma {:induction false} SelectMore(segs: seq<Segment>, list: seq<nat>, k: nat, branch: int, on: bool)
    requires InRange(segs, list) && k < |list|
    ensures Select(segs, list[..k + 1], branch, on)
         == Select(segs, list[..k], branch, on) + if (segs[list[k]].branch == branch) == on then [list[k]] else []
  {
    assert list[..k + 1][..k] == list[..k];
  }

  lemma {:induction false} OrdersMore(segs: seq<Segment>, h: seq<nat>, i: nat, list: seq<nat>, c: nat)
    requires Unique(segs) && Ranked(segs, h) && i < |segs| && Inflows(segs, i, list + [c])
    ensures Inflows(segs, i, list) && c < |segs|
    ensures Orders(segs, h, i, list + [c]) == Orders(segs, h, i, list) + Order(segs, h, c)
  {
    hide Order;
    var s := list + [c];
    assert forall k :: 0 <= k < |list| ==> s[k] == list[k];
    assert s[|list|] == c && s[..|s| - 1] == list;
  }

  // There is at most one inflow on the segment's own branch.
  lemma {:induction false} OneOnBranch(segs: seq<Segment>, h: seq<nat>, i: nat)
    requires Tree(segs, h) && i < |segs|
    ensures InRange(segs, Inflow(segs, i))
    ensures |Select(segs, Inflow(segs, i), segs[i].branch, true)| <= 1
  {
    InflowInRange(segs, i);
    var r := Select(segs, Inflow(segs, i), segs[i].branch, true);
    FirstTwo(r);
    InflowIs(segs, i);
  }

  lemma FirstTwo(r: seq<nat>)
    requires Increasing(r)
    ensures |r| > 1 ==> r[0] in r && r[1] in r && r[0] < r[1]
  {}

  /** segmentOrder from a segment: along its branch to the toe, with the other
      branches that flow in listed on the way. */
  method SegmentOrder(segs: seq<Segment>, i: nat, ghost h: seq<nat>) returns (ordSegNumber: seq<nat>)
    requires Tree(segs, h) && i < |segs|
    ensures ordSegNumber == Order(segs, h, i)
    decreases h[i], 1
  {
    hide Order, Orders, Unique, Ranked, OneMain;
    ordSegNumber := [];
    var segIndCB := [i];
    var newSInd := i;
    ghost var tail: seq<nat> := [];
    while newSInd < |segs|
      invariant 0 <= newSInd <= |segs|
      invariant newSInd < |segs| ==>
        (h[newSInd] <= h[i] && segs[newSInd].branch == segs[i].branch && segIndCB == [newSInd] + tail
         && Order(segs, h, i) == ordSegNumber + (Order(segs, h, newSInd) + tail))
      invariant newSInd == |segs| ==> ordSegNumber == Order(segs, h, i)
      decreases if newSInd < |segs| then h[newSInd] as int else -1
    {
      ghost var cur := newSInd;
      ghost var was := ordSegNumber;
      ghost var sides, mains;
      ordSegNumber, newSInd, segIndCB, sides, mains := BranchStep(segs, newSInd, segIndCB, ordSegNumber, h);
      OrderParts(segs, h, cur, sides, mains);
      if newSInd < |segs| {
        tail := [cur] + tail;
        AssocMain(was, Orders(segs, h, cur, sides), Order(segs, h, newSInd), [cur], tail[1..]);
      } else {
        assert segIndCB == [cur] + tail;
        AssocToe(was, Orders(segs, h, cur, sides), [cur], tail);
        ordSegNumber := ordSegNumber + segIndCB;
      }
    }
  }

  lemma AssocMain(a: seq<nat>, b: seq<nat>, c: seq<nat>, d: seq<nat>, e: seq<nat>)
    ensures a + ((b + c + d) + e) == (a + b) + (c + (d + e))
  {}

  lemma AssocToe(a: seq<nat>, b: seq<nat>, d: seq<nat>, e: seq<nat>)
    ensures a + ((b + d) + e) == (a + b) + (d + e)
  {}

  lemma {:induction false} OrderParts(segs: seq<Segment>, h: seq<nat>, i: nat, sides: seq<nat>, mains: seq<nat>)
    requires Tree(segs, h) && i < |segs| && InRange(segs, Inflow(segs, i))
    requires sides == Select(segs, Inflow(segs, i), segs[i].branch, false)
    requires mains == Select(segs, Inflow(segs, i), segs[i].branch, true) && |mains| <= 1
    ensures Inflows(segs, i, sides)
    ensures mains == [] ==> Order(segs, h, i) == Orders(segs, h, i, sides) + [i]
    ensures mains != [] ==>
      (mains[0] < |segs| && h[mains[0]] < h[i]
       && Order(segs, h, i) == Orders(segs, h, i, sides) + Order(segs, h, mains[0]) + [i])
  {
    VisitedIs(segs, i);
    assert Order(segs, h, i) == Orders(segs, h, i, Visited(segs, i)) + [i];
    hide Order, Orders;
    if mains == [] {
      assert Visited(segs, i) == sides;
    } else {
      assert Visited(segs, i) == sides + [mains[0]];
      OrdersMore(segs, h, i, sides, mains[0]);
      assert Inflows(segs, i, sides + [mains[0]]);
      assert (sides + [mains[0]])[|sides|] == mains[0];
    }
  }

  lemma RankFalls(segs: seq<Segment>, h: seq<nat>, i: nat, j: nat)
    requires Ranked(segs, h) && i < |segs| && j < |segs| && Outlet(segs, j) == i
    ensures h[j] < h[i]
  {}

  lemma {:induction false} SelectInflows(segs: seq<Segment>, i: nat, list: seq<nat>, branch: int, on: bool)
    requires Inflows(segs, i, list)
    ensures InRange(segs, list) && Inflows(segs, i, Select(segs, list, branch, on))
  {
    var r := Select(segs, list, branch, on);
    assert forall k :: 0 <= k < |r| ==> r[k] in r;
  }

  lemma {:induction false} SelectPrefix(segs: seq<Segment>, list: seq<nat>, k: nat, branch: int, on: bool)
    requires InRange(segs, list) && k <= |list|
    ensures |Select(segs, list[..k], branch, on)| <= |Select(segs, list, branch, on)|
    decreases |list| - k
  {
    if k < |list| {
      SelectMore(segs, list, k, branch, on);
      SelectPrefix(segs, list, k + 1, branch, on);
    } else {
      assert list[..k] == list;
    }
  }

  /** Whether no inflow is on the branch. */
  method EndOfBranch(segs: seq<Segment>, list: seq<nat>, branch: int) returns (end: bool)
    requires InRange(segs, list)
    ensures end <==> Select(segs, list, branch, true) == []
  {
    end := true;
    for k := 0 to |list|
      invariant end <==> Select(segs, list[..k], branch, true) == []
    {
      SelectMore(segs, list, k, branch, true);
      if segs[list[k]].branch == branch {
        end := false;
      }
    }
    assert list[..|list|] == list;
  }

  /** The subtrees of the inflows on other branches are listed. */
  ghost predicate SidesDone(segs: seq<Segment>, h: seq<nat>, cur: nat, list: seq<nat>, ord: seq<nat>, now: seq<nat>)
    requires Tree(segs, h) && cur < |segs|
  {
    && InRange(segs, list)
    && var sides := Select(segs, list, segs[cur].branch, false);
    Inflows(segs, cur, sides) && now == ord + Orders(segs, h, cur, sides)
  }

  /** The inflow on the same branch, if seen, is the next segment. */
  ghost predicate MainDone(segs: seq<Segment>, cur: nat, list: seq<nat>, cb: seq<nat>, cbNow: seq<nat>, next: nat,
                           end: bool)
    requires cur < |segs|
  {
    && InRange(segs, list)
    && var mains := Select(segs, list, segs[cur].branch, true);
    if mains == [] then cbNow == cb && next == (if end && list != [] then |segs| else cur)
    else |mains| == 1 && cbNow == [mains[0]] + cb && next == mains[0]
  }

  lemma {:induction false} NothingVisited(segs: seq<Segment>, cur: nat, h: seq<nat>, branch: int)
    requires Tree(segs, h) && cur < |segs|
    ensures forall ord: seq<nat> :: SidesDone(segs, h, cur, [], ord, ord)
    ensures forall cb: seq<nat>, end: bool :: MainDone(segs, cur, [], cb, cb, cur, end)
  {
    assert forall ord: seq<nat> :: ord + [] == ord;
  }

  lemma {:induction false} InflowsOf(segs: seq<Segment>, i: nat)
    requires Unique(segs) && i < |segs|
    ensures Inflows(segs, i, Inflow(segs, i))
  {
    InflowIs(segs, i);
    var r := Inflow(segs, i);
    assert forall k :: 0 <= k < |r| ==> r[k] in r;
  }

  lemma {:induction false} KthInflow(segs: seq<Segment>, h: seq<nat>, cur: nat, list: seq<nat>, k: nat)
    requires Ranked(segs, h) && cur < |segs| && Inflows(segs, cur, list) && k < |list|
    ensures InRange(segs, list) && list[k] < |segs| && h[list[k]] < h[cur]
  {
    RankFalls(segs, h, cur, list[k]);
  }

  lemma {:induction false} SidesMore(segs: seq<Segment>, h: seq<nat>, cur: nat, list: seq<nat>, k: nat,
                                     ord: seq<nat>, now: seq<nat>)
    requires Tree(segs, h) && cur < |segs| && Inflows(segs, cur, list) && k < |list|
    requires InRange(segs, list) && SidesDone(segs, h, cur, list[..k], ord, now)
    ensures segs[list[k]].branch == segs[cur].branch ==> SidesDone(segs, h, cur, list[..k + 1], ord, now)
    ensures segs[list[k]].branch != segs[cur].branch ==>
      SidesDone(segs, h, cur, list[..k + 1], ord, now + Order(segs, h, list[k]))
  {
    hide Order, Orders, Unique, Ranked, OneMain, Select, Inflows, Outlet;
    var b := segs[cur].branch;
    InflowsPrefix(segs, cur, list, k + 1);
    SelectInflows(segs, cur, list[..k + 1], b, false);
    SelectMore(segs, list, k, b, false);
    var sides := Select(segs, list[..k], b, false);
    if segs[list[k]].branch != b {
      OrdersMore(segs, h, cur, sides, list[k]);
      AssocOrders(ord, Orders(segs, h, cur, sides), Order(segs, h, list[k]));
    } else {
      assert sides + [] == sides;
    }
  }

  lemma InflowsPrefix(segs: seq<Segment>, i: nat, list: seq<nat>, n: nat)
    requires Inflows(segs, i, list) && n <= |list|
    ensures Inflows(segs, i, list[..n])
  {}

  lemma AssocOrders(a: seq<nat>, b: seq<nat>, c: seq<nat>)
    ensures a + b + c == a + (b + c)
  {}

  lemma {:induction false} MainMore(segs: seq<Segment>, cur: nat, list: seq<nat>, k: nat, cb: seq<nat>,
                                    cbNow: seq<nat>, next: nat, end: bool)
    requires cur < |segs| && InRange(segs, list) && k < |list|
    requires |Select(segs, list, segs[cur].branch, true)| <= 1
    requires end <==> Select(segs, list, segs[cur].branch, true) == []
    requires MainDone(segs, cur, list[..k], cb, cbNow, next, end)
    ensures segs[list[k]].branch == segs[cur].branch ==>
      MainDone(segs, cur, list[..k + 1], cb, [list[k]] + cbNow, list[k], end)
    ensures segs[list[k]].branch != segs[cur].branch ==>
      MainDone(segs, cur, list[..k + 1], cb, cbNow, if end then |segs| else next, end)
  {
    var b := segs[cur].branch;
    SelectMore(segs, list, k, b, true);
    SelectPrefix(segs, list, k + 1, b, true);
    SelectPrefix(segs, list, k, b, true);
  }

  /** One round of the loop along the branch: the inflows of one segment. The
      next segment is past the end when the toe is reached. */
  method BranchStep(segs: seq<Segment>, cur: nat, cb: seq<nat>, ord: seq<nat>, ghost h: seq<nat>)
    returns (ordSegNumber: seq<nat>, newSInd: nat, segIndCB: seq<nat>, ghost sides: seq<nat>, ghost mains: seq<nat>)
    requires Tree(segs, h) && cur < |segs|
    ensures InRange(segs, Inflow(segs, cur))
    ensures sides == Select(segs, Inflow(segs, cur), segs[cur].branch, false)
    ensures mains == Select(segs, Inflow(segs, cur), segs[cur].branch, true) && |mains| <= 1
    ensures Inflows(segs, cur, sides) && ordSegNumber == ord + Orders(segs, h, cur, sides)
    ensures mains == [] ==> newSInd == |segs| && segIndCB == cb
    ensures mains != [] ==> newSInd == mains[0] < |segs| && segIndCB == [mains[0]] + cb
    ensures mains != [] ==> segs[newSInd].branch == segs[cur].branch
    decreases h[cur], 0
  {
    hide Orders, Unique, Ranked, OneMain, Inflows, Inflow, Select, Order;
    OneOnBranch(segs, h, cur);
    InflowsOf(segs, cur);
    var branch := segs[cur].branch;
    var iSInd := InflowSegmentsIndex(segs, cur);
    ordSegNumber, newSInd, segIndCB := ord, cur, cb;
    var endOrigBranch := EndOfBranch(segs, iSInd, branch);
    NothingVisited(segs, cur, h, branch);
    assert iSInd[..0] == [];
    for k := 0 to |iSInd|
      invariant SidesDone(segs, h, cur, iSInd[..k], ord, ordSegNumber)
      invariant MainDone(segs, cur, iSInd[..k], cb, segIndCB, newSInd, endOrigBranch)
    {
      var ind := iSInd[k];
      assert iSInd[..k + 1] == iSInd[..k] + [ind];
      KthInflow(segs, h, cur, iSInd, k);
      SidesMore(segs, h, cur, iSInd, k, ord, ordSegNumber);
      MainMore(segs, cur, iSInd, k, cb, segIndCB, newSInd, endOrigBranch);
      if segs[ind].branch == branch {
        segIndCB := [ind] + segIndCB;
        newSInd := ind;
      } else {
        var nSOrd := SegmentOrder(segs, ind, h);
        ordSegNumber := ordSegNumber + nSOrd;
        if endOrigBranch {
          newSInd := |segs|;
        }
      }
    }
    assert iSInd[..|iSInd|] == iSInd;
    if endOrigBranch || |iSInd| == 0 {
      newSInd := |segs|;
    }
    sides := Select(segs, iSInd, branch, false);
    mains := Select(segs, iSInd, branch, true);
  }
}
