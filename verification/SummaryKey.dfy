// The keys of summary vectors: the key the reader stores a vector under, and
// the key it looks up for a summary node.

module SummaryKey {
  import opened Bytes
  import opened Text
  import opened Arith

  datatype Category =
    | Well | Group | Field | Region | Block | Connection | Segment | Aquifer | Node | Miscellaneous

  datatype SummaryNode = SummaryNode(keyword: seq<byte>, category: Category, wgname: seq<byte>, number: int)

  const NO_NAME: seq<byte> := ":+:+:+:+"

  /** The S keywords that belong to no segment. */
  predicate SegmentException(keyword: seq<byte>) {
    keyword == "STEPTYPE" || keyword == "SEPARATE" || keyword == "SUMTHIN"
  }

  /** std::string::substr(pos, 1). */
  function Substr(s: seq<byte>, pos: nat): Result<seq<byte>> {
    if pos > |s| then Err(OutOfRange) else if pos == |s| then Ok("") else Ok([s[pos]])
  }

  // ------------------------------------------------------------------
  // Arithmetic of int

  /** Division of int, which drops the fraction. */
  function Quot(a: int, b: int): int
    requires b != 0
  {
    if (a < 0) == (b < 0) then Abs(a) / Abs(b) else -(Abs(a) / Abs(b))
  }

  function Abs(a: int): nat { if a < 0 then -a else a }

  /** The remainder that goes with it. */
  function Rem(a: int, b: int): int
    requires b != 0
  {
    a - Quot(a, b) * b
  }

  // ------------------------------------------------------------------
  // Cells

  /** The key part "i,j,k" of a cell number, counted from 1. */
  function CellText(nI: int, nJ: int, glob: int): seq<byte>
    requires nI != 0 && nI * nJ != 0
  {
    var rest := Rem(glob - 1, nI * nJ);
    ToString(1 + Rem(rest, nI)) + "," + ToString(1 + Quot(rest, nI)) + "," + ToString(1 + Quot(glob - 1, nI * nJ))
  }

  // ------------------------------------------------------------------
  // Pairs of regions: NUMS is R1 + 32768 * (R2 + 10)

  /** The pair that makeKeyString finds by search. */
  method SearchRegions(num: int) returns (r1: int, r2: int)
    ensures (r1, r2) == Searched(num)
  {
    r2 := 0;
    var y := 32768 * (r2 + 10) - num;
    while y < 0
      invariant r2 >= 0 && y == 32768 * (r2 + 10) - num
      invariant r2 > 0 ==> 32768 * (r2 - 1 + 10) < num
      decreases -y
    {
      r2 := r2 + 1;
      y := 32768 * (r2 + 10) - num;
    }
    SearchEnds(num, r2);
    r2 := r2 - 1;
    r1 := num - 32768 * (r2 + 10);
  }

  /** R2 is the largest number, from -1, for which R1 is positive. */
  function Searched(num: int): (int, int) {
    if num <= 327680 then (num - 294912, -1)
    else ((num - 1) % 32768 + 1, (num - 1) / 32768 - 10)
  }

  lemma {:induction false} SearchEnds(num: int, r2: int)
    requires r2 >= 0 && num <= 32768 * (r2 + 10) && (r2 > 0 ==> 32768 * (r2 + 9) < num)
    ensures (num - 32768 * (r2 + 9), r2 - 1) == Searched(num)
  {}

  /** The pair that unpackNumber computes. */
  function Unpacked(num: int): (int, int) {
    (Rem(num, 32768), Quot(num, 32768) - 10)
  }

  // The search finds the pair a number is made from ...
  lemma {:induction false} SearchFinds(r1: int, r2: int)
    requires 1 <= r1 <= 32768 && r2 >= -1
    ensures Searched(r1 + 32768 * (r2 + 10)) == (r1, r2)
  {}

  // ... and so does the division but for R1 = 32768. The last product of the
  // search is in the range of a 32-bit int exactly for numbers up to 2147450880.
  lemma {:induction false} UnpackFinds(r1: int, r2: int)
    requires 1 <= r1 <= 32768 && r2 >= -1
    ensures Unpacked(r1 + 32768 * (r2 + 10)) == (r1, r2) <==> r1 < 32768
    ensures r1 + 32768 * (r2 + 10) <= 2147450880 <==> 32768 * (r2 + 11) <= 0x7fff_ffff
  {}

  predicate CodesAgree(num: int) {
    num == 294912 || (num > 294912 && num % 32768 != 0)
  }

  lemma {:induction false} RegionsAgreeIff(num: int)
    ensures Searched(num) == Unpacked(num) <==> CodesAgree(num)
  {
    if num < 0 {
      assert Quot(num, 32768) == -((-num) / 32768);
    } else {
      assert Quot(num, 32768) == num / 32768;
    }
  }

  function PairText(p: (int, int)): seq<byte> {
    ToString(p.0) + "-" + ToString(p.1)
  }

  // Different pairs are written differently.
  lemma {:induction false} PairTextInjective(p: (int, int), q: (int, int))
    ensures PairText(p) == PairText(q) <==> p == q
  {
    hide ToString, Stoi;
    if PairText(p) == PairText(q) {
      StoiOfToString([], p.0, "-" + ToString(p.1));
      StoiOfToString([], q.0, "-" + ToString(q.1));
      assert [] + (ToString(p.0) + ("-" + ToString(p.1))) == PairText(p);
      assert [] + (ToString(q.0) + ("-" + ToString(q.1))) == PairText(q);
      var n := |ToString(p.0)|;
      assert PairText(p)[n + 1..] == ToString(p.1);
      assert PairText(q)[n + 1..] == ToString(q.1);
      ToStringInjective(p.1, q.1);
    }
  }

  lemma {:induction false} ToStringInjective(a: int, b: int)
    requires ToString(a) == ToString(b)
    ensures a == b
  {
    hide ToString, Stoi;
    StoiOfToString([], a, []);
    StoiOfToString([], b, []);
  }

  // ------------------------------------------------------------------
  // The key a vector is stored under

  /** What makeKeyString gives; an empty key is not kept. */
  function StoredKey(nI: int, nJ: int, keyword: seq<byte>, wgname: seq<byte>, num: int): Result<seq<byte>>
    requires nI != 0 && nI * nJ != 0
  {
    if keyword == "" then Ok("")
    else match keyword[0]
      case 'A' => Ok(keyword + ":" + ToString(num))
      case 'B' => Ok(keyword + ":" + CellText(nI, nJ, num))
      case 'C' => Ok(if num > 0 then keyword + ":" + wgname + ":" + CellText(nI, nJ, num) else "")
      case 'G' => Ok(if wgname != NO_NAME then keyword + ":" + wgname else "")
      case 'R' =>
        if |keyword| < 2 then Err(OutOfRange)
        else Ok(keyword + ":" + if IsPair(keyword) then PairText(Searched(num)) else ToString(num))
      case 'S' => Ok(if SegmentException(keyword) then keyword else keyword + ":" + wgname + ":" + ToString(num))
      case 'W' => Ok(if wgname != NO_NAME then keyword + ":" + wgname else "")
      case _ => Ok(keyword)
  }

  /** A region keyword about a pair of regions. */
  predicate IsPair(keyword: seq<byte>) { |keyword| > 2 && keyword[0] == 'R' && keyword[2] == 'F' }

  method MakeKeyString(nI: int, nJ: int, keyword: seq<byte>, wgname: seq<byte>, num: int) returns (r: Result<seq<byte>>)
    requires nI != 0 && nI * nJ != 0
    ensures r == StoredKey(nI, nJ, keyword, wgname, num)
  {
    hide CellText, ToString, Searched;
    var first := if keyword == "" then "" else [keyword[0]];
    if first == "A" {
      r := Ok(keyword + ":" + ToString(num));
    } else if first == "B" {
      r := Ok(keyword + ":" + CellText(nI, nJ, num));
    } else if first == "C" {
      r := Ok(if num > 0 then keyword + ":" + wgname + ":" + CellText(nI, nJ, num) else "");
    } else if first == "G" {
      r := Ok(if wgname != NO_NAME then keyword + ":" + wgname else "");
    } else if first == "R" {
      var third :- Substr(keyword, 2);
      if third == "F" {
        var r1, r2 := SearchRegions(num);
        r := Ok(keyword + ":" + (ToString(r1) + "-" + ToString(r2)));
      } else {
        r := Ok(keyword + ":" + ToString(num));
      }
    } else if first == "S" {
      r := Ok(if SegmentException(keyword) then keyword else keyword + ":" + wgname + ":" + ToString(num));
    } else if first == "W" {
      r := Ok(if wgname != NO_NAME then keyword + ":" + wgname else "");
    } else {
      r := Ok(keyword);
    }
  }

  // ------------------------------------------------------------------
  // The key of a node

  /** category_from_keyword, with the exceptions as the other keywords. */
  function CategoryOf(keyword: seq<byte>): Category {
    if keyword == "" || SegmentException(keyword) then Miscellaneous
    else match keyword[0]
      case 'A' => Aquifer
      case 'B' => Block
      case 'C' => Connection
      case 'F' => Field
      case 'G' => if keyword == "GPR" then Node else Group
      case 'R' => Region
      case 'S' => Segment
      case 'W' => Well
      case _ => Miscellaneous
  }

  // The first char tells the category, but GPR is of a node.
  lemma CategoryIs(keyword: seq<byte>)
    requires keyword != "" && !SegmentException(keyword)
    ensures
      var c, k := CategoryOf(keyword), keyword[0];
      && (c.Aquifer? <==> k == 'A') && (c.Block? <==> k == 'B') && (c.Connection? <==> k == 'C') && (c.Field? <==> k == 'F')
      && (c.Region? <==> k == 'R') && (c.Segment? <==> k == 'S') && (c.Well? <==> k == 'W')
      && (c.Node? <==> keyword == "GPR") && (c.Group? <==> k == 'G' && !c.Node?)
  {}

  predicate UseNumber(c: Category) { c.Aquifer? || c.Block? || c.Connection? || c.Region? || c.Segment? }

  predicate UseName(c: Category) { c.Connection? || c.Group? || c.Segment? || c.Node? || c.Well? }

  /** unpackNumber. */
  function UnpackNumber(nI: int, nJ: int, node: SummaryNode): seq<byte>
    requires nI != 0 && nI * nJ != 0
  {
    if node.category.Block? || node.category.Connection? then CellText(nI, nJ, node.number)
    else if node.category.Region? && |node.keyword| > 2 && node.keyword[2] == 'F' then PairText(Unpacked(node.number))
    else ToString(node.number)
  }

  /** unique_key: the parts that are used, with colons between. */
  method LookupKey(nI: int, nJ: int, node: SummaryNode) returns (key: seq<byte>)
    requires nI != 0 && nI * nJ != 0
    ensures key == KeyOf(nI, nJ, node)
  {
    hide CellText, ToString, Unpacked, UnpackNumber;
    var keyParts := [node.keyword];
    if UseName(node.category) {
      keyParts := keyParts + [node.wgname];
    }
    if UseNumber(node.category) {
      keyParts := keyParts + [UnpackNumber(nI, nJ, node)];
    }
    key := "";
    for i := 0 to |keyParts|
      invariant key == Folded(keyParts[..i])
    {
      assert keyParts[..i + 1] == keyParts[..i] + [keyParts[i]];
      key := if key == "" then keyParts[i] else key + ":" + keyParts[i];
    }
    assert keyParts[..|keyParts|] == keyParts == KeyParts(node, UnpackNumber(nI, nJ, node));
  }

  function Folded(parts: seq<seq<byte>>): seq<byte> {
    if parts == [] then ""
    else
      var key := Folded(parts[..|parts| - 1]);
      if key == "" then parts[|parts| - 1] else key + ":" + parts[|parts| - 1]
  }

  function KeyOf(nI: int, nJ: int, node: SummaryNode): seq<byte>
    requires nI != 0 && nI * nJ != 0
  {
    Folded(KeyParts(node, UnpackNumber(nI, nJ, node)))
  }

  function KeyParts(node: SummaryNode, number: seq<byte>): seq<seq<byte>> {
    match (UseName(node.category), UseNumber(node.category))
    case (true, true) => [node.keyword, node.wgname, number]
    case (true, false) => [node.keyword, node.wgname]
    case (false, true) => [node.keyword, number]
    case (false, false) => [node.keyword]
  }

  lemma {:induction false} FoldedIs(keyword: seq<byte>, name: seq<byte>, number: seq<byte>)
    requires keyword != ""
    ensures Folded([keyword]) == keyword
    ensures Folded([keyword, name]) == keyword + ":" + name
    ensures Folded([keyword, name, number]) == keyword + ":" + name + ":" + number
  {
    assert [keyword][..0] == [];
    assert [keyword, name][..1] == [keyword];
    assert [keyword, name, number][..2] == [keyword, name];
  }

  // The text of the cell i, j, k of a grid, all counted from zero, shows them from one.
  lemma {:induction false} CellTextIs(nI: nat, nJ: nat, i: nat, j: nat, k: nat)
    requires i < nI && j < nJ
    ensures nI * nJ != 0
    ensures CellText(nI, nJ, 1 + i + nI * j + nI * nJ * k)
         == ToString(i + 1) + "," + ToString(j + 1) + "," + ToString(k + 1)
  {
    hide ToString;
    var layer, rest := nI * nJ, i + nI * j;
    InLayer(nI, nJ, i, j);
    QuotIs(rest + layer * k, layer, k, rest);
    QuotIs(rest, nI, j, i);
  }

  lemma {:induction false} InLayer(nI: nat, nJ: nat, i: nat, j: nat)
    requires i < nI && j < nJ
    ensures 0 <= i + nI * j < nI * nJ
  {
    assert nI * j <= nI * (nJ - 1);
    assert nI * (nJ - 1) == nI * nJ - nI;
  }

  lemma {:induction false} QuotIs(a: nat, b: nat, q: nat, r: nat)
    requires a == b * q + r && r < b
    ensures Quot(a, b) == q && Rem(a, b) == r
  {
    DivIs(a, b, q, r);
    assert q * b == b * q;
  }

  // The keys of vectors of cells, of wells and groups with and without a name, and of
  // the three keywords that are no vectors of segments.
  lemma {:induction false} KeysAre(nI: nat, nJ: nat, i: nat, j: nat, k: nat, keyword: seq<byte>, wgname: seq<byte>, num: int)
    requires i < nI && j < nJ && nI * nJ != 0 && keyword != ""
    ensures
      var cell := 1 + i + nI * j + nI * nJ * k;
      var text := ToString(i + 1) + "," + ToString(j + 1) + "," + ToString(k + 1);
      && (keyword[0] == 'B' ==> StoredKey(nI, nJ, keyword, wgname, cell) == Ok(keyword + ":" + text))
      && (keyword[0] == 'C' ==> StoredKey(nI, nJ, keyword, wgname, cell) == Ok(keyword + ":" + wgname + ":" + text))
      && (keyword[0] == 'C' && num <= 0 ==> StoredKey(nI, nJ, keyword, wgname, num) == Ok(""))
    ensures keyword[0] == 'G' || keyword[0] == 'W' ==>
      StoredKey(nI, nJ, keyword, wgname, num) == Ok(if wgname == ":+:+:+:+" then "" else keyword + ":" + wgname)
    ensures keyword == "STEPTYPE" || keyword == "SEPARATE" || keyword == "SUMTHIN" ==>
      StoredKey(nI, nJ, keyword, wgname, num) == Ok(keyword)
    ensures keyword[0] == 'S' && keyword != "STEPTYPE" && keyword != "SEPARATE" && keyword != "SUMTHIN" ==>
      StoredKey(nI, nJ, keyword, wgname, num) == Ok(keyword + ":" + wgname + ":" + ToString(num))
    ensures keyword[0] == 'A' ==> StoredKey(nI, nJ, keyword, wgname, num) == Ok(keyword + ":" + ToString(num))
    ensures keyword[0] == 'F' ==> StoredKey(nI, nJ, keyword, wgname, num) == Ok(keyword)
  {
    hide ToString, CellText;
    CellTextIs(nI, nJ, i, j, k);
    InLayer(nI, nJ, i, j);
    assert nI * nJ * k >= 0;
  }

  // For every vector the reader keeps, the node finds the key the vector is
  // stored under, exactly if the two decodings of a pair of regions agree.
  lemma {:induction false} KeysAgreeIff(nI: int, nJ: int, keyword: seq<byte>, wgname: seq<byte>, num: int)
    requires nI != 0 && nI * nJ != 0
    requires StoredKey(nI, nJ, keyword, wgname, num).Ok? && StoredKey(nI, nJ, keyword, wgname, num).value != ""
    ensures KeyOf(nI, nJ, SummaryNode(keyword, CategoryOf(keyword), wgname, num))
         == StoredKey(nI, nJ, keyword, wgname, num).value
      <==> (IsPair(keyword) ==> CodesAgree(num))
  {
    hide CellText, ToString, Folded, Searched, Unpacked, CodesAgree;
    var node := SummaryNode(keyword, CategoryOf(keyword), wgname, num);
    FoldedIs(keyword, wgname, UnpackNumber(nI, nJ, node));
    FoldedIs(keyword, UnpackNumber(nI, nJ, node), "");
    RegionsAgreeIff(num);
    if IsPair(keyword) {
      PairTextInjective(Searched(num), Unpacked(num));
      SamePrefix(keyword + ":", PairText(Searched(num)), PairText(Unpacked(num)));
    }
  }

  // The number of the regions 32768 and 0 is taken for that of 0 and 1.
  lemma {:induction false} NumberThatDiffers(wgname: seq<byte>)
    ensures Searched(360448) == (32768, 0) && Unpacked(360448) == (0, 1)
    ensures StoredKey(1, 1, "ROF", wgname, 360448).Ok?
    ensures KeyOf(1, 1, SummaryNode("ROF", CategoryOf("ROF"), wgname, 360448))
         != StoredKey(1, 1, "ROF", wgname, 360448).value
  {
    hide ToString, KeyOf;
    assert IsPair("ROF") && !CodesAgree(360448);
    KeysAgreeIff(1, 1, "ROF", wgname, 360448);
  }

  lemma {:induction false} SamePrefix(a: seq<byte>, b: seq<byte>, c: seq<byte>)
    ensures a + b == a + c <==> b == c
  {
    assert (a + b)[|a|..] == b && (a + c)[|a|..] == c;
  }
}
