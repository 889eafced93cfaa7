// The number that the restart file gives the defining expression of a user
// defined quantity: where in the expression its weakest operator stands.

module Udq {
  import opened Bytes
  import opened Text

  /** UDQTokenType, with the four union operators, the six comparisons, the
      fourteen elemental and the ten scalar functions each taken together. */
  datatype Kind =
    | Number | EclExpr | CompExpr | OpenParen | CloseParen
    | Add | Sub | Div | Mul | Pow | UnionOp | Compare | Elemental | Scalar | TableLookup

  datatype Token = Token(text: seq<byte>, kind: Kind, selector: seq<seq<byte>>)

  const OPEN := Token("(", OpenParen, [])
  const CLOSE := Token(")", CloseParen, [])
  const MINUS := Token("-", Sub, [])

  predicate IsParen(k: Kind) { k.OpenParen? || k.CloseParen? }

  /** An operand: the source's ecl_expr, number and comp_expr. */
  predicate IsOperand(k: Kind) { k.Number? || k.EclExpr? || k.CompExpr? }

  /** operatorToken. Table lookups are not among them. */
  predicate OperatorToken(k: Kind) { !IsOperand(k) && !IsParen(k) && !k.TableLookup? }

  /** opFuncPrec. */
  function OpFuncPrec(k: Kind): (p: nat)
    ensures p <= 6
  {
    match k
    case Elemental => 6
    case Scalar => 6
    case TableLookup => 6
    case Compare => 5
    case Pow => 4
    case Mul => 3
    case Div => 3
    case Add => 2
    case Sub => 2
    case UnionOp => 1
    case _ => 0
  }

  // ------------------------------------------------------------------
  // Counting

  /** What noOperators counts: operators, functions and parentheses. */
  function Count(s: seq<Token>): nat {
    if s == [] then 0
    else Count(s[..|s| - 1]) + if OperatorToken(s[|s| - 1].kind) || IsParen(s[|s| - 1].kind) then 1 else 0
  }

  lemma {:induction false} CountAdd(a: seq<Token>, b: seq<Token>)
    ensures Count(a + b) == Count(a) + Count(b)
  {
    if b == [] {
      assert a + b == a;
    } else {
      CountAdd(a, b[..|b| - 1]);
      assert (a + b)[..|a + b| - 1] == a + b[..|b| - 1];
    }
  }

  method NoOperators(modTokens: seq<Token>) returns (noOp: nat)
    ensures noOp == Count(modTokens)
  {
    noOp := 0;
    for i := 0 to |modTokens|
      invariant noOp == Count(modTokens[..i])
    {
      assert modTokens[..i + 1][..i] == modTokens[..i];
      if OperatorToken(modTokens[i].kind) || IsParen(modTokens[i].kind) {
        noOp := noOp + 1;
      }
    }
    assert modTokens[..|modTokens|] == modTokens;
  }

  // ------------------------------------------------------------------
  // Expressions

  /** How many parentheses are open before the token at n. */
  function Depth(t: seq<Token>, n: nat): int
    requires n <= |t|
  {
    if n == 0 then 0
    else Depth(t, n - 1) + match t[n - 1].kind { case OpenParen => 1 case CloseParen => -1 case _ => 0 }
  }

  ghost predicate Balanced(t: seq<Token>) {
    Depth(t, |t|) == 0 && forall i :: 0 <= i <= |t| ==> Depth(t, i) >= 0
  }

  /** An opening parenthesis, operator or function has something to apply to,
      and no two operands stand side by side. */
  predicate Fits(t: seq<Token>) {
    && (forall i :: 0 <= i < |t| && !IsOperand(t[i].kind) && !t[i].kind.CloseParen? ==>
          i + 1 < |t| && !t[i + 1].kind.CloseParen?)
    && (forall i :: 0 <= i < |t| - 1 && (IsOperand(t[i].kind) || t[i].kind.CloseParen?) ==>
          !IsOperand(t[i + 1].kind) && !t[i + 1].kind.OpenParen?)
  }

  predicate NoComp(t: seq<Token>) { forall i :: 0 <= i < |t| ==> !t[i].kind.CompExpr? }

  /** What a token list that the expression parser takes looks like. */
  ghost predicate WellFormed(t: seq<Token>) {
    t != [] && Balanced(t) && Fits(t) && NoComp(t)
  }

  /** One pair of parentheses is around the whole list. */
  ghost predicate Wrapped(t: seq<Token>) {
    |t| >= 2 && t[0].kind.OpenParen? && forall i :: 0 < i < |t| ==> Depth(t, i) >= 1
  }

  /** The number of pairs around the whole list. */
  ghost function Layers(t: seq<Token>): nat {
    if Wrapped(t) then 1 + Layers(t[1..|t| - 1]) else 0
  }

  /** The list inside those pairs. */
  ghost function Core(t: seq<Token>): seq<Token> {
    if Wrapped(t) then Core(t[1..|t| - 1]) else t
  }

  /** A minus in front that is taken for a change of sign: no parentheses
      follow, or some follow at once and close before the expression ends. */
  ghost predicate Lead(u: seq<Token>) {
    && u != [] && u[0].kind.Sub?
    && ((forall i :: 0 <= i < |u| ==> !u[i].kind.OpenParen?)
        || (|u| > 1 && u[1].kind.OpenParen? && exists i :: 1 < i < |u| && Depth(u, i) == 0))
  }

  lemma {:induction false} DepthInner(t: seq<Token>, i: nat)
    requires |t| >= 2 && t[0].kind.OpenParen? && i <= |t| - 2
    ensures Depth(t[1..|t| - 1], i) == Depth(t, i + 1) - 1
  {
    if i == 0 {
      assert Depth(t, 1) == Depth(t, 0) + 1;
    } else {
      DepthInner(t, i - 1);
      assert t[1..|t| - 1][i - 1] == t[i];
    }
  }

  lemma {:induction false} InnerWellFormed(t: seq<Token>)
    requires WellFormed(t) && Wrapped(t)
    ensures WellFormed(t[1..|t| - 1])
    ensures t[|t| - 1].kind.CloseParen?
  {
    var u := t[1..|t| - 1];
    assert Depth(t, |t|) == Depth(t, |t| - 1) - 1;
    assert !t[1].kind.CloseParen?;
    forall i | 0 <= i <= |u| ensures Depth(u, i) == Depth(t, i + 1) - 1 {
      DepthInner(t, i);
    }
    assert Depth(t, |t| - 1) >= 1;
    assert Fits(u) by {
      assert forall i :: 0 <= i < |u| ==> u[i] == t[i + 1];
    }
  }

  // ------------------------------------------------------------------
  // The groups at the highest level

  /** Where the groups begin, among the first n tokens. */
  ghost function Starts(t: seq<Token>, n: nat): seq<nat>
    requires n <= |t|
  {
    if n == 0 then []
    else Starts(t, n - 1) + if t[n - 1].kind.OpenParen? && Depth(t, n - 1) == 0 then [n - 1] else []
  }

  /** Where they end. */
  ghost function Ends(t: seq<Token>, n: nat): seq<nat>
    requires n <= |t|
  {
    if n == 0 then []
    else Ends(t, n - 1) + if t[n - 1].kind.CloseParen? && Depth(t, n - 1) == 1 then [n - 1] else []
  }

  function Comp(ind: nat): Token { Token(ToString(ind), CompExpr, []) }

  /** The highest level of the first n tokens, with a numbered place for each group. */
  ghost function High(t: seq<Token>, n: nat): seq<Token>
    requires n <= |t|
  {
    if n == 0 then []
    else if Depth(t, n - 1) != 0 then High(t, n - 1)
    else if t[n - 1].kind.OpenParen? then High(t, n - 1) + [Comp(|Starts(t, n - 1)|)]
    else High(t, n - 1) + [t[n - 1]]
  }

  ghost predicate Flat(t: seq<Token>, p: nat) {
    p < |t| && Depth(t, p) == 0 && !IsParen(t[p].kind)
  }

  lemma {:induction false} ScanGrows(t: seq<Token>, m: nat, n: nat)
    requires m <= n <= |t|
    ensures Starts(t, m) <= Starts(t, n)
    ensures Ends(t, m) <= Ends(t, n)
  {
    if m < n { ScanGrows(t, m, n - 1); }
  }

  // A group is open where one more has begun than ended.
  lemma {:induction false} OpenGroups(t: seq<Token>, n: nat)
    requires n <= |t| && Balanced(t)
    ensures |Starts(t, n)| == |Ends(t, n)| + (if Depth(t, n) > 0 then 1 else 0)
  {
    if n > 0 {
      OpenGroups(t, n - 1);
      assert Depth(t, n) >= 0 && Depth(t, n - 1) >= 0;
    }
  }

  lemma {:induction false} StartAt(t: seq<Token>, n: nat, k: nat)
    requires n <= |t| && k < |Starts(t, n)|
    ensures Starts(t, n)[k] < n && |Starts(t, Starts(t, n)[k])| == k
    ensures t[Starts(t, n)[k]].kind.OpenParen? && Depth(t, Starts(t, n)[k]) == 0
  {
    if k < |Starts(t, n - 1)| { StartAt(t, n - 1, k); }
  }

  lemma {:induction false} EndAt(t: seq<Token>, n: nat, k: nat)
    requires n <= |t| && k < |Ends(t, n)|
    ensures Ends(t, n)[k] < n && |Ends(t, Ends(t, n)[k])| == k
    ensures t[Ends(t, n)[k]].kind.CloseParen? && Depth(t, Ends(t, n)[k]) == 1
  {
    if k < |Ends(t, n - 1)| { EndAt(t, n - 1, k); }
  }

  // The k-th group runs from the k-th start to the k-th end, and the list is
  // at a deeper level only inside.
  lemma {:induction false} GroupAt(t: seq<Token>, n: nat, k: nat)
    requires n <= |t| && Balanced(t) && k < |Ends(t, n)|
    ensures k < |Starts(t, n)| && Starts(t, n)[k] < Ends(t, n)[k] < n
    ensures forall p :: Starts(t, n)[k] < p <= Ends(t, n)[k] ==> Depth(t, p) >= 1
  {
    hide Starts, Ends, Depth;
    OpenGroups(t, n);
    EndAt(t, n, k);
    StartAt(t, n, k);
    var s, e := Starts(t, n)[k], Ends(t, n)[k];
    OpenGroups(t, e);
    StartBelow(t, e, n, k);
    forall p | s < p <= e ensures Depth(t, p) >= 1 {
      OpenGroups(t, p);
      StartBelow(t, p, n, k);
      ScanGrows(t, p, e);
    }
  }

  // The k-th group has begun before p exactly if p is past its start.
  lemma {:induction false} StartBelow(t: seq<Token>, p: nat, n: nat, k: nat)
    requires p <= n <= |t| && k < |Starts(t, n)|
    ensures |Starts(t, p)| > k <==> Starts(t, n)[k] < p
  {
    StartAt(t, n, k);
    var s := Starts(t, n)[k];
    if s < p { ScanGrows(t, s + 1, p); } else { ScanGrows(t, p, s); }
  }

  lemma {:induction false} EndBelow(t: seq<Token>, p: nat, n: nat, k: nat)
    requires p <= n <= |t| && k < |Ends(t, n)|
    ensures |Ends(t, p)| > k <==> Ends(t, n)[k] < p
  {
    EndAt(t, n, k);
    var e := Ends(t, n)[k];
    if e < p { ScanGrows(t, e + 1, p); } else { ScanGrows(t, p, e); }
  }

  // Where as many groups have begun as ended, up to the next start, the list
  // is at the highest level.
  lemma {:induction false} FlatBetween(t: seq<Token>, p: nat, k: nat)
    requires p < |t| && Balanced(t)
    requires |Ends(t, p)| == k == |Starts(t, p + 1)|
    ensures Flat(t, p)
  {
    OpenGroups(t, p);
    ScanGrows(t, p, p + 1);
    assert Depth(t, p + 1) >= 0 && Depth(t, p) >= 0;
  }

  lemma {:induction false} HighInside(t: seq<Token>, a: nat, b: nat)
    requires a <= b <= |t| && forall p :: a <= p < b ==> Depth(t, p) != 0
    ensures High(t, b) == High(t, a)
  {
    if a < b { HighInside(t, a, b - 1); }
  }

  lemma {:induction false} HighFlat(t: seq<Token>, a: nat, b: nat)
    requires a <= b <= |t| && forall p :: a <= p < b ==> Flat(t, p)
    ensures High(t, b) == High(t, a) + t[a..b]
  {
    if a < b {
      HighFlat(t, a, b - 1);
      assert Flat(t, b - 1);
      assert t[a..b] == t[a..b - 1] + [t[b - 1]];
    }
  }

  // A whole group adds its number.
  lemma {:induction false} HighGroup(t: seq<Token>, n: nat, k: nat)
    requires n <= |t| && Balanced(t) && k < |Ends(t, n)|
    ensures k < |Starts(t, n)| && Starts(t, n)[k] < Ends(t, n)[k] < n
    ensures High(t, Ends(t, n)[k] + 1) == High(t, Starts(t, n)[k]) + [Comp(k)]
  {
    hide Starts, Ends, Depth;
    GroupAt(t, n, k);
    StartAt(t, n, k);
    var s, e := Starts(t, n)[k], Ends(t, n)[k];
    assert High(t, s + 1) == High(t, s) + [Comp(k)];
    HighInside(t, s + 1, e + 1);
  }

  // ------------------------------------------------------------------
  // Putting the groups back

  type Groups = map<int, seq<Token>>

  /** Entry k is the k-th group. */
  ghost predicate GroupsAre(u: seq<Token>, groups: Groups) {
    var s, e := Starts(u, |u|), Ends(u, |u|);
    && |s| == |e|
    && (forall k :: 0 <= k < |s| ==> s[k] <= e[k] < |u|)
    && (forall k :: k in groups <==> 0 <= k < |s|)
    && (forall k :: 0 <= k < |s| ==> groups[k] == u[s[k]..e[k] + 1])
  }

  /** UDQToken::str of a token that is no number. */
  function Str(token: Token): seq<byte> { token.text + " " + Join(token.selector) }

  function Join(parts: seq<seq<byte>>): seq<byte> {
    if parts == [] then "" else Join(parts[..|parts| - 1]) + " " + parts[|parts| - 1]
  }

  /** The group a comp_expr token stands for. */
  function Lookup(token: Token, groups: Groups): Option<seq<Token>> {
    match Stoi(Str(token))
    case None => None
    case Some(k) => if k in groups then Some(groups[k]) else None
  }

  lemma {:induction false} LookupComp(k: nat, groups: Groups)
    requires k in groups
    ensures Lookup(Comp(k), groups) == Some(groups[k])
  {
    hide Stoi;
    StoiOfToString([], k, " ");
    assert [] + (ToString(k) + " ") == Str(Comp(k));
  }

  function ExpandOne(token: Token, groups: Groups): seq<Token> {
    if !token.kind.CompExpr? then [token]
    else match Lookup(token, groups) case Some(g) => g case None => []
  }

  /** The tokens with every group back in its place. */
  function Expand(high: seq<Token>, groups: Groups): seq<Token> {
    if high == [] then [] else Expand(high[..|high| - 1], groups) + ExpandOne(high[|high| - 1], groups)
  }

  lemma {:induction false} ExpandAdd(a: seq<Token>, b: seq<Token>, groups: Groups)
    ensures Expand(a + b, groups) == Expand(a, groups) + Expand(b, groups)
  {
    hide ExpandOne;
    if b == [] {
      assert a + b == a;
    } else {
      ExpandAdd(a, b[..|b| - 1], groups);
      assert (a + b)[..|a + b| - 1] == a + b[..|b| - 1];
    }
  }

  lemma {:induction false} ExpandMore(high: seq<Token>, token: Token, groups: Groups)
    ensures Expand(high + [token], groups) == Expand(high, groups) + ExpandOne(token, groups)
  {
    hide ExpandOne;
    assert (high + [token])[..|high|] == high;
  }

  lemma {:induction false} ExpandHigh(u: seq<Token>, n: nat, groups: Groups)
    requires n <= |u| && Balanced(u) && NoComp(u) && GroupsAre(u, groups) && Depth(u, n) == 0
    ensures Expand(High(u, n), groups) == u[..n]
  {
    hide Expand, Lookup, Depth, Starts, Ends, GroupsAre, Balanced;
    if n == 0 {
      EmptyExpand(groups);
    } else if Flat(u, n - 1) {
      ExpandHigh(u, n - 1, groups);
      ExpandMore(High(u, n - 1), u[n - 1], groups);
      assert u[..n] == u[..n - 1] + [u[n - 1]];
    } else {
      var k := LastGroup(u, n);
      GroupAt(u, n, k);
      StartAt(u, n, k);
      ExpandHigh(u, Starts(u, n)[k], groups);
      ExpandGroup(u, n, k, groups);
    }
  }

  lemma {:induction false} ExpandGroup(u: seq<Token>, n: nat, k: nat, groups: Groups)
    requires 0 < n <= |u| && Balanced(u) && GroupsAre(u, groups)
    requires k < |Ends(u, n)| && Ends(u, n)[k] == n - 1 && k < |Starts(u, n)| && Starts(u, n)[k] < n
    requires Expand(High(u, Starts(u, n)[k]), groups) == u[..Starts(u, n)[k]]
    ensures Expand(High(u, n), groups) == u[..n]
  {
    hide Expand, Lookup, Depth, Starts, Ends, High, Balanced;
    HighGroup(u, n, k);
    var s := Starts(u, n)[k];
    ScanGrows(u, n, |u|);
    assert groups[k] == u[s..n];
    LookupComp(k, groups);
    ExpandMore(High(u, s), Comp(k), groups);
    assert u[..n] == u[..s] + u[s..n];
  }

  lemma EmptyExpand(groups: Groups)
    ensures Expand([], groups) == []
  {}

  lemma {:induction false} LastGroup(u: seq<Token>, n: nat) returns (k: nat)
    requires 0 < n <= |u| && Balanced(u) && Depth(u, n) == 0 && !Flat(u, n - 1)
    ensures k < |Ends(u, n)| && Ends(u, n)[k] == n - 1
  {
    assert Depth(u, n - 1) >= 0;
    k := |Ends(u, n - 1)|;
  }

  // ------------------------------------------------------------------
  // substitute_outer_parenthesis

  /** substOuterParentheses. */
  datatype Substituted = Substituted(highest: seq<Token>, groups: Groups, leading: nat, sign: bool)

  /** The highest level inside the outer parentheses, without a change of sign. */
  ghost predicate Substitutes(t: seq<Token>, noLeadOpenPar: nat, leadChgSgn: bool, r: Substituted) {
    var u := Core(t);
    && u != []
    && GroupsAre(u, r.groups)
    && r.leading == noLeadOpenPar + Layers(t)
    && r.sign == (leadChgSgn || Lead(u))
    && High(u, |u|) == (if r.sign && u[0].kind.Sub? then [u[0]] else []) + r.highest
  }

  method AppendRange(modTokens: seq<Token>, from: nat, to: nat, list: seq<Token>) returns (r: seq<Token>)
    requires from <= to <= |modTokens|
    ensures r == list + modTokens[from..to]
  {
    r := list;
    for i := from to to
      invariant r == list + modTokens[from..i]
    {
      r := r + [modTokens[i]];
      assert modTokens[from..i + 1] == modTokens[from..i] + [modTokens[i]];
    }
  }

  /** Where the parentheses at the highest level open and close. */
  method FindGroups(modTokens: seq<Token>) returns (startParen: seq<nat>, endParen: seq<nat>)
    requires Balanced(modTokens)
    ensures startParen == Starts(modTokens, |modTokens|)
    ensures endParen == Ends(modTokens, |modTokens|)
  {
    startParen, endParen := [], [];
    var level: nat := 0;
    var searchPos: nat := 0;
    while searchPos < |modTokens|
      invariant searchPos <= |modTokens|
      invariant level == Depth(modTokens, searchPos)
      invariant startParen == Starts(modTokens, searchPos)
      invariant endParen == Ends(modTokens, searchPos)
    {
      assert Depth(modTokens, searchPos + 1) >= 0;
      if modTokens[searchPos].kind.OpenParen? && level == 0 {
        startParen := startParen + [searchPos];
        level := level + 1;
      } else if modTokens[searchPos].kind.OpenParen? {
        level := level + 1;
      } else if modTokens[searchPos].kind.CloseParen? && level == 1 {
        endParen := endParen + [searchPos];
        level := level - 1;
      } else if modTokens[searchPos].kind.CloseParen? {
        level := level - 1;
      }
      searchPos := searchPos + 1;
    }
  }

  /** One group of the highest level: its number and the tokens up to the next. */
  method AfterGroup(modTokens: seq<Token>, startParen: seq<nat>, endParen: seq<nat>, ind: nat, list: seq<Token>)
    returns (highLevOp: seq<Token>)
    requires Balanced(modTokens) && ind < |startParen| == |endParen|
    requires startParen == Starts(modTokens, |modTokens|) && endParen == Ends(modTokens, |modTokens|)
    requires startParen[ind] < |modTokens| && list == High(modTokens, startParen[ind])
    ensures ind + 1 < |startParen| ==> startParen[ind + 1] < |modTokens|
    ensures highLevOp == High(modTokens, if ind + 1 < |startParen| then startParen[ind + 1] else |modTokens|)
  {
    hide Starts, Ends, Depth, High, Balanced;
    HighGroup(modTokens, |modTokens|, ind);
    highLevOp := list + [Comp(ind)];
    NextFlat(modTokens, ind + 1);
    if ind + 1 < |startParen| { StartAt(modTokens, |modTokens|, ind + 1); }
    var subSMax := if ind == |startParen| - 1 then |modTokens| else startParen[ind + 1];
    if endParen[ind] + 1 < subSMax {
      highLevOp := AppendRange(modTokens, endParen[ind] + 1, subSMax, highLevOp);
    }
  }

  /** The tokens at the highest level, each group replaced by its number, and
      the groups by number. */
  method HighLevel(modTokens: seq<Token>, startParen: seq<nat>, endParen: seq<nat>)
    returns (highLevOp: seq<Token>, substTok: Groups)
    requires Balanced(modTokens)
    requires startParen == Starts(modTokens, |modTokens|) && endParen == Ends(modTokens, |modTokens|)
    ensures highLevOp == High(modTokens, |modTokens|)
    ensures GroupsAre(modTokens, substTok)
  {
    hide Starts, Ends, Depth, High, Balanced, GroupsUpTo, GroupsAre;
    highLevOp, substTok := [], map[];
    AllPaired(modTokens);
    NextFlat(modTokens, 0);
    NoGroups(modTokens);
    EmptyHigh(modTokens);
    if |startParen| >= 1 {
      highLevOp := AppendRange(modTokens, 0, startParen[0], highLevOp);
      for ind := 0 to |startParen|
        invariant highLevOp == High(modTokens, if ind < |startParen| then startParen[ind] else |modTokens|)
        invariant GroupsUpTo(modTokens, ind, substTok)
      {
        var substringToken := AppendRange(modTokens, startParen[ind], endParen[ind] + 1, []);
        MoreGroups(modTokens, ind, substTok);
        assert substringToken == modTokens[startParen[ind]..endParen[ind] + 1];
        substTok := substTok[ind := substringToken];
        highLevOp := AfterGroup(modTokens, startParen, endParen, ind, highLevOp);
      }
    } else {
      highLevOp := AppendRange(modTokens, 0, |modTokens|, highLevOp);
    }
  }

  /** The first n groups by number. */
  ghost predicate GroupsUpTo(u: seq<Token>, n: nat, groups: Groups) {
    var s, e := Starts(u, |u|), Ends(u, |u|);
    && n <= |s| == |e|
    && (forall k :: 0 <= k < |s| ==> s[k] <= e[k] < |u|)
    && (forall k :: k in groups <==> 0 <= k < n)
    && (forall k :: 0 <= k < n ==> groups[k] == u[s[k]..e[k] + 1])
  }

  lemma {:induction false} NoGroups(u: seq<Token>)
    requires Balanced(u)
    ensures GroupsUpTo(u, 0, map[])
    ensures forall groups: Groups :: GroupsUpTo(u, |Starts(u, |u|)|, groups) ==> GroupsAre(u, groups)
  {
    AllPaired(u);
  }

  lemma {:induction false} MoreGroups(u: seq<Token>, n: nat, groups: Groups)
    requires GroupsUpTo(u, n, groups) && n < |Starts(u, |u|)|
    ensures n < |Ends(u, |u|)| && Starts(u, |u|)[n] <= Ends(u, |u|)[n] < |u|
    ensures GroupsUpTo(u, n + 1, groups[n := u[Starts(u, |u|)[n]..Ends(u, |u|)[n] + 1]])
  {
    hide Starts, Ends;
  }

  lemma EmptyHigh(t: seq<Token>)
    ensures High(t, 0) == []
  {}

  // Every group that begins in a balanced list ends in it.
  lemma {:induction false} AllPaired(t: seq<Token>)
    requires Balanced(t)
    ensures |Starts(t, |t|)| == |Ends(t, |t|)|
    ensures forall k :: 0 <= k < |Starts(t, |t|)| ==> Starts(t, |t|)[k] < Ends(t, |t|)[k] < |t|
  {
    hide Starts, Ends, Depth;
    OpenGroups(t, |t|);
    forall k | 0 <= k < |Starts(t, |t|)| ensures Starts(t, |t|)[k] < Ends(t, |t|)[k] < |t| {
      GroupAt(t, |t|, k);
    }
  }

  // From the end of one group to the start of the next the list is flat.
  lemma {:induction false} NextFlat(t: seq<Token>, k: nat)
    requires Balanced(t) && k <= |Starts(t, |t|)| == |Ends(t, |t|)|
    requires k > 0 ==> Ends(t, |t|)[k - 1] < |t|
    ensures 0 <= Gap(t, k).0 <= Gap(t, k).1 <= |t|
    ensures High(t, Gap(t, k).1) == High(t, Gap(t, k).0) + t[Gap(t, k).0..Gap(t, k).1]
  {
    hide Starts, Ends, Depth, High;
    var (a, b) := Gap(t, k);
    if k < |Starts(t, |t|)| { StartAt(t, |t|, k); }
    if 0 < k < |Starts(t, |t|)| {
      EndAt(t, |t|, k - 1);
      OpenGroups(t, b);
      EndBelow(t, b, |t|, k - 1);
    }
    forall p | a <= p < b ensures Flat(t, p) {
      if k > 0 { EndBelow(t, p, |t|, k - 1); GroupAt(t, |t|, k - 1); StartBelow(t, p + 1, |t|, k - 1); }
      if k < |Starts(t, |t|)| { StartBelow(t, p + 1, |t|, k); GroupAt(t, |t|, k); EndBelow(t, p, |t|, k); } else {
        ScanGrows(t, p, |t|);
        ScanGrows(t, p + 1, |t|);
      }
      FlatBetween(t, p, k);
    }
    HighFlat(t, a, b);
  }

  /** From the end of group k - 1 to the start of group k. */
  ghost function Gap(t: seq<Token>, k: nat): (int, int)
    requires k <= |Starts(t, |t|)| == |Ends(t, |t|)|
  {
    var s, e := Starts(t, |t|), Ends(t, |t|);
    (if k > 0 then e[k - 1] + 1 else 0, if k < |s| then s[k] else |t|)
  }

  // The parentheses around the whole list are the first group, if it ends last.
  lemma {:induction false} WrappedIff(u: seq<Token>)
    requires u != [] && Balanced(u)
    ensures Wrapped(u) <==>
      |Starts(u, |u|)| > 0 && Starts(u, |u|)[0] == 0 && Ends(u, |u|) != [] && Ends(u, |u|)[0] == |u| - 1
  {
    AllPaired(u);
    var s, e := Starts(u, |u|), Ends(u, |u|);
    if Wrapped(u) {
      assert Starts(u, 1) == [0];
      ScanGrows(u, 1, |u|);
      EndAt(u, |u|, 0);
      assert Depth(u, e[0] + 1) == 0;
    } else if s != [] && s[0] == 0 {
      StartAt(u, |u|, 0);
      GroupAt(u, |u|, 0);
    }
  }

  lemma {:induction false} LeadIff(u: seq<Token>)
    requires u != [] && Balanced(u) && u[0].kind.Sub?
    ensures |Starts(u, |u|)| == |Ends(u, |u|)|
    ensures Lead(u) <==> (Starts(u, |u|) == [] || (Starts(u, |u|)[0] == 1 && Ends(u, |u|)[0] < |u| - 1))
  {
    AllPaired(u);
    var s, e := Starts(u, |u|), Ends(u, |u|);
    if s == [] {
      forall p | 0 <= p < |u| ensures !u[p].kind.OpenParen? {
        ScanGrows(u, p + 1, |u|);
        ScanGrows(u, p, |u|);
        FlatBetween(u, p, 0);
      }
    } else {
      StartAt(u, |u|, 0);
      GroupAt(u, |u|, 0);
      EndAt(u, |u|, 0);
      assert Depth(u, 0) == Depth(u, 1) == 0;
      assert Depth(u, e[0] + 1) == 0;
      if |u| > 1 && u[1].kind.OpenParen? {
        assert Starts(u, 0) == Starts(u, 1) == [];
        assert Starts(u, 2) == [1];
        ScanGrows(u, 2, |u|);
      }
    }
  }

  lemma {:induction false} FirstIsHigh(u: seq<Token>, n: nat)
    requires 0 < n <= |u| && u[0].kind.Sub?
    ensures High(u, n) != [] && High(u, n)[0] == u[0]
  {
    if n > 1 { FirstIsHigh(u, n - 1); } else { assert Depth(u, 0) == 0; }
  }

  method SubstituteOuterParenthesis(modTokens: seq<Token>, noLeadOpenPar: nat, leadChgSgn: bool)
    returns (r: Substituted)
    requires WellFormed(modTokens)
    ensures Substitutes(modTokens, noLeadOpenPar, leadChgSgn, r)
    decreases |modTokens|
  {
    hide Starts, Ends, Depth, High, Fits, Lead, Wrapped;
    var startParen, endParen := FindGroups(modTokens);
    var highLevOp, substTok := HighLevel(modTokens, startParen, endParen);
    var sign := leadChgSgn;
    WrappedIff(modTokens);
    AllPaired(modTokens);
    if modTokens[0].kind.Sub? {
      LeadIff(modTokens);
      FirstIsHigh(modTokens, |modTokens|);
      if |startParen| > 0 {
        if startParen[0] == 1 && endParen[0] < |modTokens| - 1 {
          sign := true;
        }
      } else {
        sign := true;
      }
      if sign {
        highLevOp := highLevOp[1..];
      }
      NotWrapped(modTokens);
    } else {
      NoLead(modTokens);
      if |startParen| >= 1 && startParen[0] == 0 && endParen[0] == |modTokens| - 1 {
        InnerWellFormed(modTokens);
        r := SubstituteOuterParenthesis(modTokens[1..|modTokens| - 1], noLeadOpenPar + 1, leadChgSgn);
        return;
      }
    }
    r := Substituted(highLevOp, substTok, noLeadOpenPar, sign);
  }

  lemma NotWrapped(u: seq<Token>)
    requires u != [] && u[0].kind.Sub?
    ensures !Wrapped(u)
  {}

  lemma NoLead(u: seq<Token>)
    requires u != [] && !u[0].kind.Sub?
    ensures !Lead(u)
  {}

  // ------------------------------------------------------------------
  // Undoing the substitution

  function Repeat(token: Token, n: nat): (s: seq<Token>)
    ensures |s| == n
  {
    seq(n, _ => token)
  }

  /** The parentheses, the sign and the groups put back. */
  function Restored(r: Substituted): seq<Token> {
    Repeat(OPEN, r.leading) + (if r.sign then [MINUS] else []) + Expand(r.highest, r.groups) + Repeat(CLOSE, r.leading)
  }

  /** Parentheses and minus signs are spelled the one way there is to spell them. */
  predicate Spelled(t: seq<Token>) {
    forall i :: 0 <= i < |t| ==>
      (t[i].kind.OpenParen? ==> t[i] == OPEN) && (t[i].kind.CloseParen? ==> t[i] == CLOSE) && (t[i].kind.Sub? ==> t[i] == MINUS)
  }

  predicate AllKind(s: seq<Token>, k: Kind) { forall i :: 0 <= i < |s| ==> s[i].kind == k }

  lemma {:induction false} CoreIs(t: seq<Token>)
    requires WellFormed(t)
    ensures WellFormed(Core(t)) && !Wrapped(Core(t)) && 2 * Layers(t) + |Core(t)| == |t|
    ensures t == t[..Layers(t)] + Core(t) + t[|t| - Layers(t)..]
    ensures AllKind(t[..Layers(t)], OpenParen) && AllKind(t[|t| - Layers(t)..], CloseParen)
    decreases |t|
  {
    Peel(t);
    hide *;
    if Wrapped(t) {
      var v := t[1..|t| - 1];
      InnerWellFormed(t);
      CoreIs(v);
      Around(t, Layers(v), Core(v));
    } else {
      assert t == t[..0] + t + t[|t|..];
      assert t[..0] == [] && t[|t|..] == [];
      NoneOfKind(t[..0], OpenParen);
      NoneOfKind(t[|t|..], CloseParen);
    }
  }

  lemma NoneOfKind(s: seq<Token>, k: Kind)
    requires s == []
    ensures AllKind(s, k)
  {}

  lemma {:induction false} Peel(t: seq<Token>)
    ensures Wrapped(t) ==> |t| >= 2 && t[0].kind.OpenParen?
    ensures Wrapped(t) ==> Layers(t) == Layers(t[1..|t| - 1]) + 1 && Core(t) == Core(t[1..|t| - 1])
    ensures !Wrapped(t) ==> Layers(t) == 0 && Core(t) == t
  {
    hide Depth;
  }

  lemma {:induction false} Around(t: seq<Token>, n: nat, u: seq<Token>)
    requires |t| >= 2 && 2 * n + |u| + 2 == |t|
    requires t[0].kind.OpenParen? && t[|t| - 1].kind.CloseParen?
    requires var v := t[1..|t| - 1];
      v == v[..n] + u + v[|v| - n..] && AllKind(v[..n], OpenParen) && AllKind(v[|v| - n..], CloseParen)
    ensures t == t[..n + 1] + u + t[|t| - n - 1..]
    ensures AllKind(t[..n + 1], OpenParen) && AllKind(t[|t| - n - 1..], CloseParen)
  {
    var v := t[1..|t| - 1];
    assert t == [t[0]] + v + [t[|t| - 1]];
    assert t[..n + 1] == [t[0]] + v[..n];
    assert t[|t| - n - 1..] == v[|v| - n..] + [t[|t| - 1]];
  }

  lemma {:induction false} ExpandAll(u: seq<Token>, pre: seq<Token>, high: seq<Token>, groups: Groups, n: nat)
    requires n <= |u| && Balanced(u) && NoComp(u) && GroupsAre(u, groups) && Depth(u, n) == 0
    requires High(u, n) == pre + high && NoComp(pre)
    ensures pre + Expand(high, groups) == u[..n]
  {
    hide High, Depth, Balanced, GroupsAre, ExpandOne;
    ExpandHigh(u, n, groups);
    ExpandAdd(pre, high, groups);
    ExpandNothing(pre, groups);
  }

  lemma {:induction false} ExpandNothing(pre: seq<Token>, groups: Groups)
    requires NoComp(pre)
    ensures Expand(pre, groups) == pre
  {
    hide Lookup;
    if pre != [] {
      ExpandNothing(pre[..|pre| - 1], groups);
      ExpandMore(pre[..|pre| - 1], pre[|pre| - 1], groups);
      assert pre[..|pre| - 1] + [pre[|pre| - 1]] == pre;
    }
  }

  // Whatever the groups, the stripped parentheses and the sign were, putting
  // them back gives the expression.
  lemma {:induction false} SubstitutionUndone(t: seq<Token>, r: Substituted)
    requires WellFormed(t) && Spelled(t) && Substitutes(t, 0, false, r)
    ensures Restored(r) == t
  {
    hide Expand, High, Depth, Balanced, Fits, GroupsAre, Lead, Wrapped, Core, Layers;
    CoreIs(t);
    var n, u := Layers(t), Core(t);
    SignIsSub(u);
    WholeDepth(u);
    ExpandAll(u, if r.sign then [u[0]] else [], r.highest, r.groups, |u|);
    assert r.sign ==> u[0] == t[n] by { assert u == t[n..|t| - n]; }
    assert u[..|u|] == u;
    assert t[..n] == Repeat(OPEN, n);
    assert t[|t| - n..] == Repeat(CLOSE, n);
  }

  lemma WholeDepth(u: seq<Token>)
    requires Balanced(u)
    ensures Depth(u, |u|) == 0
  {}

  lemma SignIsSub(u: seq<Token>)
    ensures Lead(u) ==> u != [] && u[0].kind.Sub?
  {}

  // ------------------------------------------------------------------
  // define_type

  /** An operator or function at the highest level that is no change of sign. */
  ghost predicate Candidate(u: seq<Token>, p: nat) {
    && p < |u| && Depth(u, p) == 0
    && !IsOperand(u[p].kind) && !IsParen(u[p].kind)
    && !(p == 0 && Lead(u))
  }

  /** The last one of those that bind the weakest. */
  ghost predicate Chosen(u: seq<Token>, p: nat) {
    && Candidate(u, p)
    && forall q: nat :: Candidate(u, q) ==>
         OpFuncPrec(u[p].kind) < OpFuncPrec(u[q].kind) || (OpFuncPrec(u[p].kind) == OpFuncPrec(u[q].kind) && q <= p)
  }

  /** The define type in terms of the expression: minus the number of operators,
      functions and parentheses up to and with the weakest operator, or with the
      sign if there is none. It is 1 without either, and also if the weakest
      operator comes first and is neither a function nor a minus. */
  ghost predicate TypeIs(t: seq<Token>, d: int) {
    var n, u := Layers(t), Core(t);
    && n + |u| <= |t|
    && (forall p: nat :: Chosen(u, p) ==>
          d == if p > 0 then -(Count(t[..n + p + 1]) as int)
               else if OpFuncPrec(u[0].kind) == 6 || u[0].kind.Sub? then -1 - n
               else 1)
    && ((forall p: nat :: !Candidate(u, p)) ==> d == if Lead(u) then -1 - n else 1)
  }

  /** The place of the operator with the lowest precedence and highest index. */
  method LowestPrecedence(high: seq<Token>) returns (indLowestPrecOper: nat, curPrec: nat)
    ensures indLowestPrecOper == 0 || indLowestPrecOper < |high|
    ensures LowestAt(high, |high|, indLowestPrecOper, curPrec)
  {
    curPrec := 100;
    indLowestPrecOper := 0;
    for ind := 0 to |high|
      invariant indLowestPrecOper == 0 || indLowestPrecOper < ind
      invariant LowestAt(high, ind, indLowestPrecOper, curPrec)
    {
      if !high[ind].kind.EclExpr? && !high[ind].kind.CompExpr? && !high[ind].kind.Number? {
        var tmpPrec := OpFuncPrec(high[ind].kind);
        if tmpPrec <= curPrec {
          curPrec := tmpPrec;
          indLowestPrecOper := ind;
        }
      }
    }
  }

  predicate LowestAt(high: seq<Token>, n: nat, low: nat, cur: nat)
    requires n <= |high|
  {
    if forall k :: 0 <= k < n ==> IsOperand(high[k].kind) then cur == 100 && low == 0
    else
      && low < n && !IsOperand(high[low].kind) && cur == OpFuncPrec(high[low].kind)
      && forall k :: 0 <= k < n && !IsOperand(high[k].kind) ==>
           cur < OpFuncPrec(high[k].kind) || (cur == OpFuncPrec(high[k].kind) && k <= low)
  }

  /** Every numbered place has its group, and no parenthesis is left. */
  predicate Numbered(high: seq<Token>, groups: Groups) {
    forall k :: 0 <= k < |high| ==>
      !IsParen(high[k].kind) && (high[k].kind.CompExpr? ==> Lookup(high[k], groups).Some?)
  }

  /** The operators, functions and parentheses up to and with an entry. */
  method CountUpTo(high: seq<Token>, groups: Groups, last: nat) returns (count: nat)
    requires last < |high| && Numbered(high, groups)
    ensures count == Count(Expand(high[..last + 1], groups))
  {
    hide Lookup, Count, Expand;
    EmptyExpand(groups);
    EmptyCount();
    count := 0;
    for ind := 0 to last + 1
      invariant count == Count(Expand(high[..ind], groups))
    {
      assert high[..ind + 1] == high[..ind] + [high[ind]];
      ExpandMore(high[..ind], high[ind], groups);
      CountAdd(Expand(high[..ind], groups), ExpandOne(high[ind], groups));
      CountOne(high[ind]);
      if OperatorToken(high[ind].kind) {
        count := count + 1;
      } else if high[ind].kind.CompExpr? {
        var group := Lookup(high[ind], groups);
        var inside := NoOperators(group.value);
        count := count + inside;
      }
    }
  }

  lemma EmptyCount()
    ensures Count([]) == 0
  {}

  lemma CountOne(token: Token)
    ensures Count([token]) == if OperatorToken(token.kind) || IsParen(token.kind) then 1 else 0
  {
    assert [token][..0] == [];
  }

  // ------------------------------------------------------------------
  // Entries of the highest level and their places in the expression

  lemma {:induction false} HighGrows(u: seq<Token>, m: nat, n: nat)
    requires m <= n <= |u|
    ensures High(u, m) <= High(u, n)
  {
    hide Depth;
    if m < n { HighGrows(u, m, n - 1); }
  }

  lemma {:induction false} EntryAt(u: seq<Token>, n: nat, p: nat)
    requires p < n <= |u| && Depth(u, p) == 0
    ensures |High(u, p)| < |High(u, n)|
    ensures !u[p].kind.OpenParen? ==> High(u, n)[|High(u, p)|] == u[p]
    ensures u[p].kind.OpenParen? ==> High(u, n)[|High(u, p)|] == Comp(|Starts(u, p)|)
    ensures |High(u, p + 1)| == |High(u, p)| + 1
  {
    hide Depth;
    HighGrows(u, p + 1, n);
  }

  lemma {:induction false} PlaceOf(u: seq<Token>, n: nat, k: nat) returns (p: nat)
    requires n <= |u| && k < |High(u, n)|
    ensures p < n && Depth(u, p) == 0 && |High(u, p)| == k
  {
    hide Depth;
    if k < |High(u, n - 1)| { p := PlaceOf(u, n - 1, k); } else { p := n - 1; }
  }

  // Entries stand in the order of their places.
  lemma {:induction false} PlacesOrdered(u: seq<Token>, p: nat, q: nat)
    requires p < |u| && q < |u| && Depth(u, p) == 0 && Depth(u, q) == 0
    ensures p < q <==> |High(u, p)| < |High(u, q)|
  {
    if p < q { EntryAt(u, q, p); } else if q < p { EntryAt(u, p, q); }
  }

  lemma {:induction false} NoCloseAtZero(u: seq<Token>, p: nat)
    requires Balanced(u) && p < |u| && Depth(u, p) == 0
    ensures !u[p].kind.CloseParen?
  {
    assert Depth(u, p + 1) >= 0;
  }

  lemma {:induction false} Levels(t: seq<Token>, r: Substituted)
    requires WellFormed(t) && Substitutes(t, 0, false, r)
    ensures r.highest != [] && Numbered(r.highest, r.groups)
  {
    hide Depth, High, Starts, Ends, Wrapped, Fits, Lookup, Lead, Core;
    CoreIs(t);
    var u := Core(t);
    var pre := if r.sign then [u[0]] else [];
    SignIsSub(u);
    FirstEntry(u);
    forall k | 0 <= k < |r.highest|
      ensures !IsParen(r.highest[k].kind) && (r.highest[k].kind.CompExpr? ==> Lookup(r.highest[k], r.groups).Some?)
    {
      assert r.highest[k] == High(u, |u|)[|pre| + k];
      var p := PlaceOf(u, |u|, |pre| + k);
      EntryAt(u, |u|, p);
      NoCloseAtZero(u, p);
      if u[p].kind.OpenParen? {
        GroupStarts(u, p);
        LookupComp(|Starts(u, p)|, r.groups);
      }
    }
  }

  lemma {:induction false} GroupStarts(u: seq<Token>, p: nat)
    requires p < |u| && u[p].kind.OpenParen? && Depth(u, p) == 0
    ensures |Starts(u, p)| < |Starts(u, |u|)|
  {
    ScanGrows(u, p + 1, |u|);
  }

  // There is an entry, and one more after a sign.
  lemma {:induction false} FirstEntry(u: seq<Token>)
    requires WellFormed(u)
    ensures |High(u, |u|)| >= if u[0].kind.Sub? then 2 else 1
    ensures Depth(u, 0) == 0 && High(u, 0) == []
    ensures u[0].kind.Sub? ==> |u| >= 2 && Depth(u, 1) == 0 && |High(u, 1)| == 1
  {
    hide Starts;
    EntryAt(u, |u|, 0);
    if u[0].kind.Sub? {
      assert Depth(u, 1) == Depth(u, 0);
      EntryAt(u, |u|, 1);
    }
  }

  // A minus that changes the sign is before a single operand, or there is an
  // operator besides it.
  lemma {:induction false} LeadAlone(u: seq<Token>)
    requires WellFormed(u) && Lead(u) && forall p: nat :: !Candidate(u, p)
    ensures |u| == 2 && IsOperand(u[1].kind)
  {
    if |u| != 2 || !IsOperand(u[1].kind) {
      var p := LeadAndOperator(u);
    }
  }

  lemma {:induction false} LeadAndOperator(u: seq<Token>) returns (p: nat)
    requires WellFormed(u) && Lead(u) && (|u| != 2 || !IsOperand(u[1].kind))
    ensures Candidate(u, p)
  {
    hide High, Starts, Ends;
    FirstEntry(u);
    NoCloseAtZero(u, 1);
    if u[1].kind.OpenParen? {
      var i :| 1 < i < |u| && Depth(u, i) == 0;
      var e := LastGroupBefore(u, i);
      NoCloseAtZero(u, e + 1);
      p := e + 1;
    } else if IsOperand(u[1].kind) {
      assert Depth(u, 2) == 0;
      NoCloseAtZero(u, 2);
      p := 2;
    } else {
      p := 1;
    }
  }

  // Where the list is back at the highest level after a parenthesis, the token
  // before is a closing one, at the first such place.
  lemma {:induction false} LastGroupBefore(u: seq<Token>, i: nat) returns (e: nat)
    requires 1 < i < |u| && Depth(u, i) == 0 && Depth(u, 2) >= 1 && Balanced(u)
    ensures e + 1 <= i && u[e].kind.CloseParen? && Depth(u, e + 1) == 0
  {
    if u[i - 1].kind.CloseParen? {
      e := i - 1;
    } else {
      assert Depth(u, i - 1) >= 0;
      assert i > 2;
      e := LastGroupBefore(u, i - 1);
    }
  }

  // ------------------------------------------------------------------
  // The lowest entry is the chosen operator

  /** The highest level of a core, with or without its sign. */
  ghost predicate HighIs(u: seq<Token>, sign: bool, high: seq<Token>) {
    && WellFormed(u) && (sign <==> Lead(u))
    && High(u, |u|) == (if sign then [u[0]] else []) + high
  }

  // An operator at the highest level is an entry, in its order.
  lemma {:induction false} CandidateEntry(u: seq<Token>, sign: bool, high: seq<Token>, q: nat) returns (k: nat)
    requires HighIs(u, sign, high) && Candidate(u, q)
    ensures k < |high| && high[k] == u[q] && !IsOperand(high[k].kind)
    ensures |High(u, q)| == k + if sign then 1 else 0
  {
    hide Depth, High, Balanced, Fits, Lead;
    EntryAt(u, |u|, q);
    FirstEntry(u);
    PlacesOrdered(u, 0, q);
    SignIsSub(u);
    k := |High(u, q)| - if sign then 1 else 0;
    assert High(u, |u|)[|High(u, q)|] == high[k];
  }

  // And an entry that is no operand is an operator at the highest level.
  lemma {:induction false} EntryCandidate(u: seq<Token>, sign: bool, high: seq<Token>, k: nat) returns (p: nat)
    requires HighIs(u, sign, high) && k < |high| && !IsOperand(high[k].kind)
    ensures Candidate(u, p) && high[k] == u[p]
    ensures |High(u, p)| == k + if sign then 1 else 0
  {
    hide Depth, High, Balanced, Fits, Lead;
    var pre := if sign then 1 else 0;
    assert High(u, |u|)[pre + k] == high[k];
    p := PlaceOf(u, |u|, pre + k);
    EntryAt(u, |u|, p);
    NoCloseAtZero(u, p);
    FirstEntry(u);
  }

  lemma {:induction false} LowestIsChosen(u: seq<Token>, sign: bool, high: seq<Token>, low: nat, cur: nat)
    returns (p: nat)
    requires HighIs(u, sign, high) && LowestAt(high, |high|, low, cur)
    requires low < |high| && !IsOperand(high[low].kind)
    ensures Chosen(u, p) && high[low] == u[p] && |High(u, p)| == low + if sign then 1 else 0
    ensures cur == OpFuncPrec(u[p].kind)
  {
    hide HighIs, High, Depth;
    p := EntryCandidate(u, sign, high, low);
    forall q: nat | Candidate(u, q)
      ensures cur < OpFuncPrec(u[q].kind) || (cur == OpFuncPrec(u[q].kind) && q <= p)
    {
      var k := CandidateEntry(u, sign, high, q);
      PlacesOrdered(u, p, q);
    }
  }

  // There is a candidate exactly if some entry is no operand.
  lemma {:induction false} NoCandidate(u: seq<Token>, sign: bool, high: seq<Token>)
    requires HighIs(u, sign, high)
    ensures (forall p: nat :: !Candidate(u, p)) <==> (forall k :: 0 <= k < |high| ==> IsOperand(high[k].kind))
  {
    hide HighIs, High, Depth, Candidate;
    if k :| 0 <= k < |high| && !IsOperand(high[k].kind) {
      var p := EntryCandidate(u, sign, high, k);
    }
    forall p: nat | Candidate(u, p) ensures exists k :: 0 <= k < |high| && !IsOperand(high[k].kind) {
      var k := CandidateEntry(u, sign, high, p);
    }
  }

  lemma {:induction false} ResultHigh(t: seq<Token>, r: Substituted)
    requires WellFormed(t) && Substitutes(t, 0, false, r)
    ensures HighIs(Core(t), r.sign, r.highest)
    ensures Layers(t) + |Core(t)| <= |t| && r.leading == Layers(t) && GroupsAre(Core(t), r.groups)
  {
    hide Depth, High, Wrapped, Fits, Lead, Core, Layers, GroupsAre;
    CoreIs(t);
    SignIsSub(Core(t));
  }

  lemma {:induction false} TypeOfChosen(t: seq<Token>, p: nat, d: int)
    requires Layers(t) + |Core(t)| <= |t| && Chosen(Core(t), p)
    requires d == if p > 0 then -(Count(t[..Layers(t) + p + 1]) as int)
      else if OpFuncPrec(Core(t)[0].kind) == 6 || Core(t)[0].kind.Sub? then -1 - Layers(t)
      else 1
    ensures TypeIs(t, d)
  {
    hide Core, Layers, Depth, Lead, Count;
    assert Candidate(Core(t), p);
  }

  // Without a sign, the first entry being the lowest.
  lemma {:induction false} FirstChosen(t: seq<Token>, r: Substituted, cur: nat, d: int)
    requires WellFormed(t) && Substitutes(t, 0, false, r) && !r.sign
    requires r.highest != [] && LowestAt(r.highest, |r.highest|, 0, cur)
    requires d == if cur == 6 || r.highest[0].kind.Sub? then -1 - r.leading else 1
    ensures TypeIs(t, d)
  {
    ResultHigh(t, r);
    hide Substitutes, WellFormed, Core, Layers, Depth, Lead, Count, High, HighIs, GroupsAre;
    var u := Core(t);
    NoCandidate(u, false, r.highest);
    if IsOperand(r.highest[0].kind) {
      assert cur == 100;
      assert HighIs(u, false, r.highest) ==> !Lead(u) by { NotLead(u, r.highest); }
    } else {
      var p := LowestIsChosen(u, false, r.highest, 0, cur);
      assert p == 0 by { FirstPlace(u, p, r.highest); }
      TypeOfChosen(t, p, d);
    }
  }

  lemma NotLead(u: seq<Token>, high: seq<Token>)
    ensures HighIs(u, false, high) ==> !Lead(u)
  {}

  lemma {:induction false} FirstPlace(u: seq<Token>, p: nat, high: seq<Token>)
    requires HighIs(u, false, high) && Candidate(u, p) && |High(u, p)| == 0
    ensures p == 0
  {
    FirstEntry(u);
    PlacesOrdered(u, 0, p);
  }

  // With a sign, or a later entry being the lowest.
  lemma {:induction false} LaterChosen(t: seq<Token>, r: Substituted, low: nat, cur: nat, d: int)
    requires WellFormed(t) && Substitutes(t, 0, false, r) && (r.sign || low > 0)
    requires low < |r.highest| && LowestAt(r.highest, |r.highest|, low, cur)
    requires d == (if r.sign then -1 else 0) - r.leading - Count(Expand(r.highest[..low + 1], r.groups))
    ensures TypeIs(t, d)
  {
    ResultHigh(t, r);
    hide WellFormed, Substitutes, Core, Layers, Depth, Lead, Count, High, HighIs, GroupsAre, Expand;
    var u := Core(t);
    NoCandidate(u, r.sign, r.highest);
    if IsOperand(r.highest[low].kind) {
      SignAlone(u, r);
    } else {
      var p := LowestIsChosen(u, r.sign, r.highest, low, cur);
      LaterPlace(u, p);
      CountThrough(t, u, r, low, p);
      TypeOfChosen(t, p, d);
    }
  }

  lemma LaterPlace(u: seq<Token>, p: nat)
    requires p <= |u|
    ensures |High(u, p)| > 0 ==> p > 0
  {}

  lemma {:induction false} SignAlone(u: seq<Token>, r: Substituted)
    requires HighIs(u, r.sign, r.highest) && r.highest != [] && r.sign
    requires forall p: nat :: !Candidate(u, p)
    requires GroupsAre(u, r.groups)
    ensures Lead(u) && Count(Expand(r.highest[..1], r.groups)) == 0
  {
    hide High, Starts, Ends, GroupsAre, Lead, Depth, Expand, Count, Candidate, Lookup, Balanced, Fits;
    SignIsSub(u);
    LeadAlone(u);
    FirstEntry(u);
    EntryAt(u, |u|, 1);
    assert r.highest[0] == High(u, |u|)[1] == u[1];
    assert r.highest[..1] == [u[1]];
    ExpandNothing([u[1]], r.groups);
    CountOne(u[1]);
  }

  // What is counted is all there is in the expression up to the operator.
  lemma {:induction false} CountThrough(t: seq<Token>, u: seq<Token>, r: Substituted, low: nat, p: nat)
    requires WellFormed(t) && u == Core(t) && r.leading == Layers(t) && GroupsAre(u, r.groups)
    requires HighIs(u, r.sign, r.highest) && Candidate(u, p) && low < |r.highest|
    requires |High(u, p)| == low + if r.sign then 1 else 0
    requires p < |u| && Layers(t) + |u| <= |t|
    ensures Count(t[..Layers(t) + p + 1])
         == r.leading + (if r.sign then 1 else 0) + Count(Expand(r.highest[..low + 1], r.groups))
  {
    hide *;
    var n, pre := Layers(t), if r.sign then [u[0]] else [];
    CoreIs(t);
    Through(u, r, low, p);
    CountParts(t, n, u, pre, Expand(r.highest[..low + 1], r.groups), p);
  }

  lemma {:induction false} CountParts(t: seq<Token>, n: nat, u: seq<Token>, pre: seq<Token>, e: seq<Token>, p: nat)
    requires p < |u| && 2 * n + |u| == |t| && t == t[..n] + u + t[|t| - n..] && AllKind(t[..n], OpenParen)
    requires u[..p + 1] == pre + e && |pre| <= 1 && (pre != [] ==> pre[0].kind.Sub?)
    ensures Count(t[..n + p + 1]) == n + |pre| + Count(e)
  {
    hide Count;
    assert t[..n + p + 1] == t[..n] + u[..p + 1];
    CountAdd(t[..n], u[..p + 1]);
    CountAdd(pre, e);
    CountOpens(t[..n]);
    CountSign(pre);
  }

  lemma {:induction false} Through(u: seq<Token>, r: Substituted, low: nat, p: nat)
    requires GroupsAre(u, r.groups)
    requires HighIs(u, r.sign, r.highest) && Candidate(u, p) && low < |r.highest|
    requires |High(u, p)| == low + if r.sign then 1 else 0
    ensures u[..p + 1] == (if r.sign then [u[0]] else []) + Expand(r.highest[..low + 1], r.groups)
    ensures r.sign ==> u[0].kind.Sub?
  {
    SignIsSub(u);
    assert Depth(u, p + 1) == 0;
    hide Depth, Lead, Count, High, GroupsAre, Expand, Wrapped, Fits;
    var pre := if r.sign then [u[0]] else [];
    EntryAt(u, |u|, p);
    HighGrows(u, p + 1, |u|);
    assert High(u, p + 1) == pre + r.highest[..low + 1];
    ExpandAll(u, pre, r.highest[..low + 1], r.groups, p + 1);
  }

  lemma CountSign(pre: seq<Token>)
    requires |pre| <= 1 && (pre != [] ==> pre[0].kind.Sub?)
    ensures Count(pre) == |pre|
  {}

  lemma {:induction false} CountOpens(s: seq<Token>)
    requires AllKind(s, OpenParen)
    ensures Count(s) == |s|
  {
    if s != [] { CountOpens(s[..|s| - 1]); }
  }

  // ------------------------------------------------------------------
  // The same by kinds of tokens

  /** An operator or function at the highest level that is no change of sign. */
  ghost predicate OperatorAt(u: seq<Token>, p: nat) {
    && p < |u| && Depth(u, p) == 0 && !(p == 0 && Lead(u))
    && match u[p].kind
       case Number => false
       case EclExpr => false
       case CompExpr => false
       case OpenParen => false
       case CloseParen => false
       case _ => true
  }

  /** The last union operator if there is one, else the last sum or difference, else the last
      product or quotient, else the last power, else the last comparison, else the last
      function or table lookup. */
  ghost predicate WeakestAt(u: seq<Token>, p: nat) {
    && OperatorAt(u, p)
    && forall q: nat :: OperatorAt(u, q) ==>
         var a, b := u[p].kind, u[q].kind;
         if a.UnionOp? then b.UnionOp? ==> q <= p else
         && !b.UnionOp?
         && if a.Add? || a.Sub? then b.Add? || b.Sub? ==> q <= p else
         && !b.Add? && !b.Sub?
         && if a.Mul? || a.Div? then b.Mul? || b.Div? ==> q <= p else
         && !b.Mul? && !b.Div?
         && if a.Pow? then b.Pow? ==> q <= p else
         && !b.Pow?
         && if a.Compare? then b.Compare? ==> q <= p else
         !b.Compare? && q <= p
  }

  /** How many tokens are neither operands nor table lookups. */
  ghost function Numbering(s: seq<Token>): nat {
    if s == [] then 0
    else
      Numbering(s[..|s| - 1])
      + match s[|s| - 1].kind
        case Number => 0
        case EclExpr => 0
        case CompExpr => 0
        case TableLookup => 0
        case _ => 1
  }

  lemma {:induction false} ChosenIsWeakest(u: seq<Token>, p: nat)
    ensures Chosen(u, p) <==> WeakestAt(u, p)
  {
    forall q: nat ensures Candidate(u, q) <==> OperatorAt(u, q) {
      SameOperator(u, q);
    }
    hide Candidate, OperatorAt, Depth, Lead;
    assert forall q: nat :: OperatorAt(u, q) ==> q < |u| && !IsOperand(u[q].kind) && !IsParen(u[q].kind) by {
      AreOperators(u);
    }
  }

  lemma SameOperator(u: seq<Token>, q: nat)
    ensures Candidate(u, q) <==> OperatorAt(u, q)
  {
    hide Depth, Lead;
  }

  lemma AreOperators(u: seq<Token>)
    ensures forall q: nat :: OperatorAt(u, q) ==> q < |u| && !IsOperand(u[q].kind) && !IsParen(u[q].kind)
  {
    hide Depth, Lead;
  }

  lemma {:induction false} CountIsNumbering(s: seq<Token>)
    ensures Count(s) == Numbering(s)
  {
    if s != [] {
      CountIsNumbering(s[..|s| - 1]);
    }
  }

  /** The define type by kinds: minus the number of the weakest operator, or of the sign if
      there is none; 1 without either, and if the weakest operator comes first and is neither
      a function, a lookup nor a minus. */
  ghost predicate TypeByKinds(t: seq<Token>, d: int) {
    var n, u := Layers(t), Core(t);
    && n + |u| <= |t|
    && (forall p: nat :: WeakestAt(u, p) ==>
          d == if p > 0 then -(Numbering(t[..n + p + 1]) as int)
               else if u[0].kind.Elemental? || u[0].kind.Scalar? || u[0].kind.TableLookup? || u[0].kind.Sub? then -1 - n
               else 1)
    && ((forall p: nat :: !OperatorAt(u, p)) ==> d == if Lead(u) then -1 - n else 1)
  }

  lemma {:induction false} TypeInKinds(t: seq<Token>, d: int)
    ensures TypeIs(t, d) <==> TypeByKinds(t, d)
  {
    hide Core, Layers, Chosen, WeakestAt, Lead, Count, Numbering, Candidate, OperatorAt;
    var n, u := Layers(t), Core(t);
    if n + |u| <= |t| {
      forall p: nat
        ensures Chosen(u, p) <==> WeakestAt(u, p)
        ensures Chosen(u, p) ==> p < |u| && Count(t[..n + p + 1]) == Numbering(t[..n + p + 1])
        ensures Candidate(u, p) <==> OperatorAt(u, p)
      {
        ChosenIsWeakest(u, p);
        SameOperator(u, p);
        if Chosen(u, p) {
          ChosenInRange(u, p);
          CountIsNumbering(t[..n + p + 1]);
        }
      }
      FirstKinds(u);
    }
  }

  lemma ChosenInRange(u: seq<Token>, p: nat)
    requires Chosen(u, p)
    ensures p < |u|
  {}

  lemma FirstKinds(u: seq<Token>)
    ensures u != [] ==>
      (OpFuncPrec(u[0].kind) == 6 <==> u[0].kind.Elemental? || u[0].kind.Scalar? || u[0].kind.TableLookup?)
  {}

  method DefineType(tokens: seq<Token>) returns (defType: int)
    requires WellFormed(tokens)
    ensures TypeIs(tokens, defType)
    ensures TypeByKinds(tokens, defType)
  {
    hide *;
    var expr := SubstituteOuterParenthesis(tokens, 0, false);
    var indLowestPrecOper, curPrec := LowestPrecedence(expr.highest);
    Levels(tokens, expr);
    if !expr.sign && indLowestPrecOper == 0 {
      if curPrec == 6 || expr.highest[indLowestPrecOper].kind.Sub? {
        defType := -1;
        defType := defType - expr.leading;
      } else {
        defType := 1;
      }
      FirstChosen(tokens, expr, curPrec, defType);
    } else {
      defType := if expr.sign then -1 else 0;
      defType := defType - expr.leading;
      var count := CountUpTo(expr.highest, expr.groups, indLowestPrecOper);
      defType := defType - count;
      LaterChosen(tokens, expr, indLowestPrecOper, curPrec, defType);
    }
    TypeInKinds(tokens, defType);
  }

  // ------------------------------------------------------------------
  // What the number says

  // An expression with an operator has one that is chosen.
  lemma {:induction false} SomeChosen(u: seq<Token>, n: nat, q: nat) returns (p: nat)
    requires n <= |u| && q < n && Candidate(u, q)
    ensures Candidate(u, p) && p < n
    ensures forall k: nat :: Candidate(u, k) && k < n ==>
      OpFuncPrec(u[p].kind) < OpFuncPrec(u[k].kind) || (OpFuncPrec(u[p].kind) == OpFuncPrec(u[k].kind) && k <= p)
  {
    hide Depth, Lead;
    if k: nat :| Candidate(u, k) && k < n - 1 {
      p := SomeChosen(u, n - 1, k);
      if Candidate(u, n - 1) && OpFuncPrec(u[n - 1].kind) <= OpFuncPrec(u[p].kind) {
        p := n - 1;
      }
    } else {
      p := q;
    }
  }

  // The define type is determined.
  lemma {:induction false} TypeUnique(t: seq<Token>, d: int, e: int)
    requires TypeIs(t, d) && TypeIs(t, e)
    ensures d == e
  {
    hide Candidate, Core, Layers, Count;
    var u := Core(t);
    if q: nat :| Candidate(u, q) {
      InRange(u, q);
      var p := SomeChosen(u, |u|, q);
      AllInRange(u);
      assert Chosen(u, p);
    }
  }

  lemma InRange(u: seq<Token>, q: nat)
    requires Candidate(u, q)
    ensures q < |u|
  {}

  lemma AllInRange(u: seq<Token>)
    ensures forall q: nat :: Candidate(u, q) ==> q < |u|
  {}

  /** The number of operators, functions, table lookups and parentheses. */
  function NonOperands(s: seq<Token>): nat {
    if s == [] then 0 else NonOperands(s[..|s| - 1]) + if IsOperand(s[|s| - 1].kind) then 0 else 1
  }

  predicate HasLookup(s: seq<Token>) { exists i :: 0 <= i < |s| && s[i].kind.TableLookup? }

  lemma {:induction false} CountIff(s: seq<Token>)
    ensures Count(s) <= NonOperands(s)
    ensures Count(s) == NonOperands(s) <==> !HasLookup(s)
  {
    if s != [] {
      var r := s[..|s| - 1];
      CountIff(r);
      assert s == r + [s[|s| - 1]];
      assert s[|s| - 1].kind.TableLookup? ==> HasLookup(s);
      assert HasLookup(r) ==> HasLookup(s);
    }
  }

  // The define type is minus the place of the chosen operator among all that is
  // no operand, exactly if no table lookup stands up to it; an operator that
  // comes first has its place if it is a function, a lookup or a minus.
  lemma {:induction false} PlaceIff(t: seq<Token>, d: int, p: nat)
    requires WellFormed(t) && TypeIs(t, d) && Chosen(Core(t), p)
    ensures Layers(t) + p < |t| && t[Layers(t) + p] == Core(t)[p]
    ensures d == -(NonOperands(t[..Layers(t) + p + 1]) as int) <==>
      (if p == 0 then OpFuncPrec(Core(t)[0].kind) == 6 || Core(t)[0].kind.Sub?
       else !HasLookup(t[..Layers(t) + p + 1]))
  {
    hide Depth, Lead, Core, Layers, NonOperands, Count, WellFormed, HasLookup;
    CoreIs(t);
    var n, u := Layers(t), Core(t);
    assert t[n..|t| - n] == u;
    CountIff(t[..n + p + 1]);
    if p == 0 {
      assert Candidate(u, 0);
      assert t[..n + 1] == t[..n] + [u[0]];
      FirstCounts(t[..n], u[0]);
    }
  }

  // A sum behind a table lookup gets the number three, where it is the fourth that is
  // no operand.
  lemma {:induction false} LookupNotCounted(f: Token, a: Token, add: Token, b: Token)
    requires f.kind.TableLookup? && a.kind.EclExpr? && add.kind.Add? && b.kind.EclExpr?
    ensures var t := [f, OPEN, a, CLOSE, add, b];
      && WellFormed(t) && Core(t) == t && Layers(t) == 0 && Chosen(t, 4)
      && TypeIs(t, -3) && NonOperands(t[..5]) == 4
  {
    var t := [f, OPEN, a, CLOSE, add, b];
    LookupDepths(t);
    LookupCounts(t);
    assert Core(t) == t && Layers(t) == 0;
    hide *;
    TypeOfChosen(t, 4, -3);
  }

  lemma {:induction false} LookupDepths(t: seq<Token>)
    requires |t| == 6 && t[0].kind.TableLookup? && t[1].kind.OpenParen? && t[2].kind.EclExpr?
    requires t[3].kind.CloseParen? && t[4].kind.Add? && t[5].kind.EclExpr?
    ensures WellFormed(t) && !Wrapped(t) && !Lead(t) && Chosen(t, 4)
    ensures Depth(t, 0) == Depth(t, 4) == 0
  {
    assert Depth(t, 0) == Depth(t, 1) == 0 && Depth(t, 2) == Depth(t, 3) == 1;
    assert Depth(t, 4) == Depth(t, 5) == Depth(t, 6) == 0;
    hide Depth;
  }

  lemma {:induction false} LookupCounts(t: seq<Token>)
    requires |t| == 6 && t[0].kind.TableLookup? && t[1].kind.OpenParen? && t[2].kind.EclExpr?
    requires t[3].kind.CloseParen? && t[4].kind.Add?
    ensures Count(t[..5]) == 3 && NonOperands(t[..5]) == 4
  {
    assert t[..5][..4] == t[..4] && t[..4][..3] == t[..3] && t[..3][..2] == t[..2] && t[..2][..1] == t[..1];
    assert t[..1][..0] == [];
    assert Count(t[..1]) == 0 && Count(t[..2]) == 1 && Count(t[..3]) == 1 && Count(t[..4]) == 2;
    assert NonOperands(t[..1]) == 1 && NonOperands(t[..2]) == 2 && NonOperands(t[..3]) == 2 && NonOperands(t[..4]) == 3;
  }

  lemma {:induction false} FirstCounts(opens: seq<Token>, token: Token)
    requires AllKind(opens, OpenParen) && !IsOperand(token.kind)
    ensures NonOperands(opens + [token]) == |opens| + 1
  {
    assert (opens + [token])[..|opens|] == opens;
    OpensAreNone(opens);
  }

  lemma {:induction false} OpensAreNone(opens: seq<Token>)
    requires AllKind(opens, OpenParen)
    ensures NonOperands(opens) == |opens|
  {
    if opens != [] { OpensAreNone(opens[..|opens| - 1]); }
  }

  /** Parentheses around the last operand. */
  function Parenthesized(u: seq<Token>): (v: seq<Token>)
    requires u != []
    ensures |v| == |u| + 2
  {
    u[..|u| - 1] + [OPEN, u[|u| - 1], CLOSE]
  }

  lemma {:induction false} DepthsKept(u: seq<Token>, i: nat)
    requires u != [] && i < |u|
    ensures Depth(Parenthesized(u), i) == Depth(u, i)
  {
    if i > 0 { DepthsKept(u, i - 1); }
  }

  lemma {:induction false} LastDepths(u: seq<Token>)
    requires WellFormed(u) && IsOperand(u[|u| - 1].kind)
    ensures var v, n := Parenthesized(u), |u|;
      && Depth(u, n - 1) == 0 && Depth(v, n - 1) == 0
      && Depth(v, n) == 1 && Depth(v, n + 1) == 1 && Depth(v, n + 2) == 0
  {
    var v, n := Parenthesized(u), |u|;
    DepthsKept(u, n - 1);
    assert v[n - 1] == OPEN && v[n] == u[n - 1] && v[n + 1] == CLOSE;
  }

  lemma {:induction false} ParenthesizedFits(u: seq<Token>)
    requires Fits(u) && NoComp(u) && u != [] && IsOperand(u[|u| - 1].kind)
    ensures Fits(Parenthesized(u)) && NoComp(Parenthesized(u))
  {
    var v, n := Parenthesized(u), |u|;
    assert forall i :: 0 <= i < n - 1 ==> v[i] == u[i];
    assert v[n - 1] == OPEN && v[n] == u[n - 1] && v[n + 1] == CLOSE;
  }

  lemma {:induction false} ParenthesizedCore(u: seq<Token>)
    requires WellFormed(u) && |u| >= 2 && IsOperand(u[|u| - 1].kind)
    ensures WellFormed(Parenthesized(u))
    ensures Core(u) == u && Core(Parenthesized(u)) == Parenthesized(u)
  {
    var v, n := Parenthesized(u), |u|;
    LastDepths(u);
    ParenthesizedFits(u);
    forall i | 0 <= i <= n + 2 ensures Depth(v, i) >= 0 {
      if i < n { DepthsKept(u, i); }
    }
    hide Depth, Fits, NoComp;
    assert !Wrapped(u) && !Wrapped(v);
  }

  predicate NoOpen(u: seq<Token>) { forall i :: 0 <= i < |u| ==> !u[i].kind.OpenParen? }

  // The new parentheses make a minus in front an operator where there were none.
  lemma {:induction false} LeadLost(u: seq<Token>)
    requires WellFormed(u) && |u| >= 2 && IsOperand(u[|u| - 1].kind)
    ensures Lead(Parenthesized(u)) <==> Lead(u) && !NoOpen(u)
  {
    var v, n := Parenthesized(u), |u|;
    LastDepths(u);
    forall i: nat | i < n ensures Depth(v, i) == Depth(u, i) {
      DepthsKept(u, i);
    }
    hide Depth;
    assert v[n - 1].kind.OpenParen?;
    assert forall i :: 0 <= i < n - 1 ==> v[i] == u[i];
  }

  lemma {:induction false} SameCandidate(u: seq<Token>, q: nat)
    requires WellFormed(u) && |u| >= 2 && IsOperand(u[|u| - 1].kind)
    ensures q > 0 ==> (Candidate(Parenthesized(u), q) <==> Candidate(u, q))
    ensures q == 0 ==> (Candidate(Parenthesized(u), q) <==> Candidate(u, q) || (u[0].kind.Sub? && NoOpen(u)))
  {
    var v, n := Parenthesized(u), |u|;
    LastDepths(u);
    LeadLost(u);
    if q < n {
      DepthsKept(u, q);
    }
    hide Depth;
  }

  // Parentheses around a last operand leave the chosen operator where it is, unless it
  // binds tighter than a minus in front that had been taken for a change of sign, which
  // is so where there were no parentheses; then that minus is chosen.
  lemma {:induction false} ParenthesesMove(u: seq<Token>, p: nat)
    requires WellFormed(u) && |u| >= 2 && IsOperand(u[|u| - 1].kind) && Chosen(Core(u), p)
    ensures var v := Parenthesized(u);
      && WellFormed(v) && Core(u) == u && Core(v) == v
      && (Chosen(v, p) <==> !(u[0].kind.Sub? && NoOpen(u) && OpFuncPrec(u[p].kind) > 2))
      && (!Chosen(v, p) ==> Chosen(v, 0))
  {
    hide Candidate, NoOpen;
    var v := Parenthesized(u);
    ParenthesizedCore(u);
    forall q: nat
      ensures q > 0 ==> (Candidate(v, q) <==> Candidate(u, q))
      ensures q == 0 ==> (Candidate(v, q) <==> Candidate(u, q) || (u[0].kind.Sub? && NoOpen(u)))
      ensures Candidate(u, q) ==> q < |u| - 1 && v[q] == u[q]
    {
      SameCandidate(u, q);
      if Candidate(u, q) { BeforeLast(u, q); }
    }
  }

  lemma BeforeLast(u: seq<Token>, q: nat)
    requires u != [] && IsOperand(u[|u| - 1].kind) && Candidate(u, q)
    ensures q < |u| - 1 && Parenthesized(u)[q] == u[q]
  {}

  // The product is the weakest operator of a power times a factor.
  lemma {:induction false} PowerTimes(a: Token, pow: Token, n: Token, mul: Token, b: Token, d: int)
    requires a.kind.EclExpr? && pow.kind.Pow? && n.kind.Number? && mul.kind.Mul? && b.kind.EclExpr?
    requires TypeIs([a, pow, n, mul, b], d)
    ensures d == -2
  {
    var t := [a, pow, n, mul, b];
    assert Depth(t, 0) == Depth(t, 1) == Depth(t, 2) == Depth(t, 3) == Depth(t, 4) == Depth(t, 5) == 0;
    hide Depth;
    assert Core(t) == t && Layers(t) == 0;
    assert Chosen(t, 3);
    assert t[..4][..3] == t[..3] && t[..3][..2] == t[..2] && t[..2][..1] == t[..1] && t[..1][..0] == [];
    assert Count(t[..1]) == 0 && Count(t[..2]) == 1 && Count(t[..3]) == 1 && Count(t[..4]) == 2;
  }

  // Parentheses around the last operand move the chosen operator from the
  // product to the minus in front.
  lemma {:induction false} ParenthesesMatter(a: Token, b: Token, mul: Token)
    requires a.kind.EclExpr? && b.kind.EclExpr? && mul.kind.Mul?
    ensures WellFormed([MINUS, a, mul, b]) && Chosen(Core([MINUS, a, mul, b]), 2)
    ensures WellFormed([MINUS, a, mul, OPEN, b, CLOSE]) && Chosen(Core([MINUS, a, mul, OPEN, b, CLOSE]), 0)
  {
    var s, t := [MINUS, a, mul, b], [MINUS, a, mul, OPEN, b, CLOSE];
    assert Depth(s, 0) == Depth(s, 1) == Depth(s, 2) == Depth(s, 3) == Depth(s, 4) == 0;
    assert Depth(t, 0) == Depth(t, 1) == Depth(t, 2) == Depth(t, 3) == 0;
    assert Depth(t, 4) == Depth(t, 5) == 1 && Depth(t, 6) == 0;
    hide Depth;
    assert Core(s) == s && Core(t) == t;
    assert Lead(s) && Candidate(s, 2);
    assert !Lead(t) by { assert t[3].kind.OpenParen?; }
    assert Candidate(t, 0);
  }
}
