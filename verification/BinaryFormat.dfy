// The unformatted (binary) file format: length-framed blocks and the closed-form
// disk size, with the functions that read them back. A reader works on the rest
// of the file from its current position on.

module BinaryFormat {
  import opened Bytes
  import opened Arith
  import opened Text
  import opened EclData

  // ------------------------------------------------------------------
  // Element data

  function Payload(t: EclArrType, width: nat, ix: bool, items: seq<Item>): (p: seq<byte>)
    requires AllFit(t, width, items)
    ensures |p| == Times(|items|, ElementBytes(t, width))
  {
    if items == [] then []
    else ItemBytes(t, width, ix, items[0]) + Payload(t, width, ix, items[1..])
  }

  lemma {:induction false} PayloadConcat(t: EclArrType, width: nat, ix: bool, a: seq<Item>, b: seq<Item>)
    requires AllFit(t, width, a) && AllFit(t, width, b)
    ensures Payload(t, width, ix, a + b) == Payload(t, width, ix, a) + Payload(t, width, ix, b)
  {
    hide ItemBytes, Times, ElementBytes, Fits;
    if a == [] {
      assert a + b == b;
    } else {
      PayloadConcat(t, width, ix, a[1..], b);
      assert (a + b)[1..] == a[1..] + b;
      Assoc(ItemBytes(t, width, ix, a[0]), Payload(t, width, ix, a[1..]), Payload(t, width, ix, b));
    }
  }

  // The payload of a slice is the matching slice of the payload.
  lemma {:induction false} PayloadSplit(t: EclArrType, width: nat, ix: bool, items: seq<Item>, k: nat)
    requires AllFit(t, width, items) && k <= |items|
    ensures var cut := Times(k, ElementBytes(t, width));
            && cut <= |Payload(t, width, ix, items)|
            && Payload(t, width, ix, items)[..cut] == Payload(t, width, ix, items[..k])
            && Payload(t, width, ix, items)[cut..] == Payload(t, width, ix, items[k..])
  {
    hide Payload, Times, ElementBytes, Fits;
    PayloadConcat(t, width, ix, items[..k], items[k..]);
    assert items[..k] + items[k..] == items;
    SplitAt(Payload(t, width, ix, items[..k]), Payload(t, width, ix, items[k..]));
  }

  // ------------------------------------------------------------------
  // Blocks: at most m payload bytes between two copies of their length

  function Frame(p: seq<byte>): (s: seq<byte>)
    requires |p| <= INT_MAX
    ensures |s| == |p| + 8
  {
    BigEndian(|p|) + p + BigEndian(|p|)
  }

  function Blocks(p: seq<byte>, m: nat): (s: seq<byte>)
    requires 0 < m <= INT_MAX
    ensures |s| >= |p| && (p != [] ==> |s| > |p|)
  {
    if p == [] then []
    else if |p| > m then Frame(p[..m]) + Blocks(p[m..], m)
    else Frame(p)
  }

  /** What the writer loops produce when their counter of remaining bytes
      starts at `rest`, which need not be the size of the payload. */
  function CountedBlocks(p: seq<byte>, rest: int, m: nat, w: nat): seq<byte>
    requires 0 < w && 0 < m <= INT_MAX && rest <= |p|
  {
    if rest <= 0 then []
    else if rest > m then Frame(p[..m]) + CountedBlocks(p[m..], rest - m, m, w)
    else
      DivTimes(rest, w);
      Frame(p[..Times(rest / w, w)])
  }

  lemma {:induction false} CountedBlocksExact(p: seq<byte>, n: nat, k: nat, w: nat)
    requires 0 < w && 0 < k && 0 < Times(k, w) <= INT_MAX && |p| == Times(n, w)
    ensures CountedBlocks(p, |p|, Times(k, w), w) == Blocks(p, Times(k, w))
    decreases n
  {
    hide Times, Frame;
    if n > k {
      TimesMonotone(k, n, w);
      TimesAdd(k, n - k, w);
      CountedBlocksExact(p[Times(k, w)..], n - k, k, w);
    } else {
      TimesMonotone(n, k, w);
      TimesDiv(n, w);
      assert p[..|p|] == p;
    }
  }

  lemma {:induction false} CountedBlocksShort(p: seq<byte>, rest: int, m: nat, w: nat)
    requires 0 < w && 0 < m <= INT_MAX && rest < |p| && p != []
    ensures |CountedBlocks(p, rest, m, w)| < |Blocks(p, m)|
    decreases |p|
  {
    hide Times, Frame;
    if rest > m {
      CountedBlocksShort(p[m..], rest - m, m, w);
    } else if rest > 0 {
      DivTimes(rest, w);
    }
  }

  /** The closed-form size of an array's data on disk. */
  function SizeOnDiskBinary(num: int, t: EclArrType, elementSize: int): Result<nat> {
    if t.MESS? then
      if num > 0 then Err(MessWithData) else Ok(0)
    else if num > 0 then
      if t.C0NN? && elementSize <= 0 then Err(BadWidth)
      else
        var width: nat := if elementSize > 0 then elementSize else 0;
        var full := num / BlockElements(t);
        var rest := num - full * BlockElements(t);
        var tail := if rest > 0 then rest * ElementBytes(t, width) + 2 * 4 else 0;
        Ok(full * (MaxBlock(t, width) + 2 * 4) + tail)
    else Ok(0)
  }

  lemma {:induction false} BlocksLength(p: seq<byte>, n: nat, k: nat, w: nat)
    requires 0 < w && 0 < k && 0 < Times(k, w) <= INT_MAX && |p| == Times(n, w)
    ensures |Blocks(p, Times(k, w))|
         == Times(n / k, Times(k, w) + 8) + (if n % k > 0 then Times(n % k, w) + 8 else 0)
    decreases n
  {
    hide Frame;
    if n >= k {
      TimesMonotone(k, n, w);
      TimesAdd(k, n - k, w);
      BlocksLength(p[Times(k, w)..], n - k, k, w);
      DivStep(n, k);
      if n == k {
        DivIs(0, k, 0, 0);
      } else {
        TimesMonotone(1, n - k, w);
      }
    } else {
      TimesMonotone(n, k, w);
      DivIs(n, k, 0, n);
      TimesMonotone(if n > 0 then 1 else 0, n, w);
    }
  }

  /** The width of C0NN elements is one whose blocks an int can count. */
  predicate WidthOk(t: EclArrType, width: nat) {
    t.C0NN? ==> 0 < width && 105 * width <= INT_MAX
  }

  lemma {:induction false} BlockQuotient(t: EclArrType, width: nat)
    requires WidthOk(t, width)
    ensures 0 < ElementBytes(t, width) && 0 < MaxBlock(t, width) <= INT_MAX
    ensures Times(BlockElements(t), ElementBytes(t, width)) == MaxBlock(t, width)
    ensures MaxBlock(t, width) / ElementBytes(t, width) == BlockElements(t)
  {
    TimesIs(BlockElements(t), ElementBytes(t, width));
    TimesDiv(BlockElements(t), ElementBytes(t, width));
  }

  function DataBytes(t: EclArrType, width: nat, ix: bool, items: seq<Item>): seq<byte>
    requires AllFit(t, width, items) && WidthOk(t, width)
  {
    BlockQuotient(t, width);
    Blocks(Payload(t, width, ix, items), MaxBlock(t, width))
  }

  // The size formula and the blocks of an array agree for every element count and
  // type. Whether the writer leaves those blocks is a question of its counter.
  lemma {:induction false} SizeOnDiskIsDataLength(t: EclArrType, width: nat, ix: bool, items: seq<Item>)
    requires AllFit(t, width, items) && WidthOk(t, width)
    ensures SizeOnDiskBinary(|items|, t, width) == Ok(|DataBytes(t, width, ix, items)|)
  {
    hide Times, Blocks;
    assert items != [] ==> Fits(t, width, items[0]);
    if items == [] {
      EmptyBlocks(MaxBlock(t, width), t, width, ix);
    } else {
      SizeFormula(|items|, t, width);
      BlockQuotient(t, width);
      BlocksLength(Payload(t, width, ix, items), |items|, BlockElements(t), ElementBytes(t, width));
    }
  }

  lemma EmptyBlocks(m: nat, t: EclArrType, width: nat, ix: bool)
    requires 0 < m <= INT_MAX
    ensures Blocks(Payload(t, width, ix, []), m) == []
  {}

  lemma WidthPositive(t: EclArrType, width: nat)
    requires WidthOk(t, width)
    ensures t.C0NN? ==> width > 0
  {}

  // The formula of the source in terms of repeated addition.
  lemma {:induction false} SizeFormula(n: nat, t: EclArrType, width: nat)
    requires WidthOk(t, width) && !t.MESS? && n > 0
    ensures
      var k := BlockElements(t);
      SizeOnDiskBinary(n, t, width)
      == Ok(Times(n / k, MaxBlock(t, width) + 8) + (if n % k > 0 then Times(n % k, ElementBytes(t, width)) + 8 else 0))
  {
    hide Times, WidthOk, MaxBlock;
    assert t.C0NN? ==> width > 0 by { WidthPositive(t, width); }
    var k := BlockElements(t);
    TimesIs(n / k, MaxBlock(t, width) + 8);
    TimesIs(n % k, ElementBytes(t, width));
    assert n - n / k * k == n % k;
  }

  // ------------------------------------------------------------------
  // Reading blocks

  function ReadInt(s: seq<byte>): Result<int32> {
    if |s| >= 4 then Ok(BigEndianValue(s[..4])) else Err(ShortRead)
  }

  lemma {:induction false} ReadIntWritten(x: int32, rest: seq<byte>)
    ensures ReadInt(BigEndian(x) + rest) == Ok(x)
  {
    hide BigEndian, BigEndianValue;
    SplitAt(BigEndian(x), rest);
    BigEndianRoundTrip(x);
  }

  function ReadItem(s: seq<byte>, t: EclArrType, width: nat): Result<Item> {
    if |s| >= ElementBytes(t, width) then ItemValue(t, s[..ElementBytes(t, width)]) else Err(ShortRead)
  }

  /** The next n elements. */
  function ReadItems(s: seq<byte>, n: nat, t: EclArrType, width: nat): (r: Result<seq<Item>>)
    ensures r.Ok? ==> |r.value| == n && |s| >= Times(n, ElementBytes(t, width))
  {
    if n == 0 then Ok([])
    else
      var v :- ReadItem(s, t, width);
      var more :- ReadItems(s[ElementBytes(t, width)..], n - 1, t, width);
      Ok([v] + more)
  }

  /** The elements of an array and the rest of the file after its blocks. */
  datatype Loaded = Loaded(items: seq<Item>, rest: seq<byte>)

  /** readBinaryArray with `count` elements still to come. */
  function ReadBlocks(s: seq<byte>, count: int, t: EclArrType, width: nat): (r: Result<Loaded>)
    requires ElementBytes(t, width) > 0
    decreases if count > 0 then count else 0
  {
    if count <= 0 then Ok(Loaded([], s))
    else
      var head :- ReadInt(s);
      var num := TruncDiv(head, ElementBytes(t, width));
      if num > BlockElements(t) || num < 0 then Err(BlockHead)
      else
        var items :- ReadItems(s[4..], num, t, width);
        if (num < BlockElements(t) && count - num != 0) || (num == BlockElements(t) && count - num < 0)
        then Err(BlockCount)
        else
          var after := s[4..][Times(num, ElementBytes(t, width))..];
          var tail :- ReadInt(after);
          if head != tail then Err(BlockTail)
          else
            var more :- ReadBlocks(after[4..], count - num, t, width);
            Ok(Loaded(items + more.items, more.rest))
  }

  function AllCanonical(items: seq<Item>): (r: seq<Item>)
    ensures |r| == |items|
    ensures forall i :: 0 <= i < |items| ==> r[i] == Canonical(items[i])
  {
    seq(|items|, i requires 0 <= i < |items| => Canonical(items[i]))
  }

  /** A string with trailing blanks does not come back as it was. */
  predicate Plain(v: Item) { v.Str? && v.s != [] ==> v.s[|v.s| - 1] != ' ' }

  // The elements themselves come back exactly if no string ends in a blank.
  lemma {:induction false} CanonicalIff(items: seq<Item>)
    ensures AllCanonical(items) == items <==> forall i :: 0 <= i < |items| ==> Plain(items[i])
  {
    forall i | 0 <= i < |items| ensures Canonical(items[i]) == items[i] <==> Plain(items[i]) {
      if items[i].Str? && Plain(items[i]) { TrimIsUnique(items[i].s, items[i].s); }
    }
    assert AllCanonical(items) == items <==> forall i :: 0 <= i < |items| ==> AllCanonical(items)[i] == items[i];
  }

  // The first block that is read, and what is left.
  lemma {:induction false} FirstBlock(s: seq<byte>, count: nat, t: EclArrType, width: nat)
    returns (num: nat, left: seq<byte>)
    requires ElementBytes(t, width) > 0 && count > 0 && ReadBlocks(s, count, t, width).Ok?
    ensures num <= BlockElements(t) && num <= count && (num < BlockElements(t) ==> num == count)
    ensures |s| == Times(num, ElementBytes(t, width)) + 8 + |left| && ReadBlocks(left, count - num, t, width).Ok?
  {
    hide ReadItem;
    num := TruncDiv(ReadInt(s).value, ElementBytes(t, width));
    var after := s[4..][Times(num, ElementBytes(t, width))..];
    assert ReadInt(after).Ok?;
    left := after[4..];
  }

  // Reading that many elements takes at least the room the size formula gives.
  lemma {:induction false} ReadNeeds(s: seq<byte>, count: nat, t: EclArrType, width: nat)
    requires WidthOk(t, width) && ElementBytes(t, width) > 0 && !t.MESS?
    requires ReadBlocks(s, count, t, width).Ok?
    ensures SizeOnDiskBinary(count, t, width).Ok? && SizeOnDiskBinary(count, t, width).value <= |s|
    decreases count
  {
    hide ReadBlocks, Times, MaxBlock, ElementBytes;
    if count > 0 {
      var num, left := FirstBlock(s, count, t, width);
      var k := BlockElements(t);
      BlockQuotient(t, width);
      SizeFormula(count, t, width);
      if num == k {
        ReadNeeds(left, count - k, t, width);
        DivStep(count, k);
        if count > k {
          SizeFormula(count - k, t, width);
        } else {
          DivIs(0, k, 0, 0);
        }
        hide SizeOnDiskBinary;
        TimesNext((count - k) / k, MaxBlock(t, width) + 8);
      } else {
        DivIs(count, k, 0, count);
        TimesNext(0, MaxBlock(t, width) + 8);
      }
    }
  }

  lemma {:induction false} ReadItemsWritten(t: EclArrType, width: nat, ix: bool, items: seq<Item>, rest: seq<byte>)
    requires AllFit(t, width, items)
    ensures ReadItems(Payload(t, width, ix, items) + rest, |items|, t, width) == Ok(AllCanonical(items))
    decreases |items|
  {
    hide ItemBytes, ItemValue, Times, ElementBytes, Canonical;
    if items == [] {
      assert AllCanonical(items) == [];
    } else {
      var first := ItemBytes(t, width, ix, items[0]);
      var others := Payload(t, width, ix, items[1..]) + rest;
      Assoc(first, Payload(t, width, ix, items[1..]), rest);
      SplitAt(first, others);
      ItemRoundTrip(t, width, ix, items[0]);
      ReadItemsWritten(t, width, ix, items[1..], rest);
      assert [Canonical(items[0])] + AllCanonical(items[1..]) == AllCanonical(items);
    }
  }

  // One frame: its head, the payload, its tail and what follows.
  lemma {:induction false} ReadFrame(p: seq<byte>, rest: seq<byte>)
    requires |p| <= INT_MAX
    ensures var s := Frame(p) + rest;
      && ReadInt(s) == Ok(|p|)
      && s[4..] == p + (BigEndian(|p|) + rest)
      && s[4..][|p|..] == BigEndian(|p|) + rest
      && ReadInt(s[4..][|p|..]) == Ok(|p|)
      && s[4..][|p|..][4..] == rest
  {
    hide BigEndian, ReadInt;
    var e := BigEndian(|p|);
    Assoc(e + p, e, rest);
    Assoc(e, p, e + rest);
    ReadIntWritten(|p|, p + (e + rest));
    ReadIntWritten(|p|, rest);
    SplitAt(e, p + (e + rest));
    SplitAt(p, e + rest);
    SplitAt(e, rest);
  }

  // One block holding the given elements, then the rest.
  lemma {:induction false} ReadOneBlock(count: int, t: EclArrType, width: nat, ix: bool, block: seq<Item>,
                                        rest: seq<byte>)
    requires AllFit(t, width, block)
    requires 0 < |block| <= BlockElements(t) && |block| <= count
    requires |block| == BlockElements(t) || |block| == count
    requires |Payload(t, width, ix, block)| <= INT_MAX && 0 < ElementBytes(t, width)
    ensures
      var more := ReadBlocks(rest, count - |block|, t, width);
      ReadBlocks(Frame(Payload(t, width, ix, block)) + rest, count, t, width) ==
        if more.Err? then Err(more.error)
        else Ok(Loaded(AllCanonical(block) + more.value.items, more.value.rest))
  {
    hide Payload, ReadInt, Frame, ReadItems, BigEndian, Times, ElementBytes, AllCanonical, Fits;
    var p := Payload(t, width, ix, block);
    ReadFrame(p, rest);
    ReadItemsWritten(t, width, ix, block, BigEndian(|p|) + rest);
    TimesDiv(|block|, ElementBytes(t, width));
  }

  lemma AllCanonicalConcat(a: seq<Item>, b: seq<Item>)
    ensures AllCanonical(a + b) == AllCanonical(a) + AllCanonical(b)
  {}

  lemma {:induction false} FitSlices(t: EclArrType, width: nat, items: seq<Item>, k: nat)
    requires AllFit(t, width, items) && k <= |items|
    ensures AllFit(t, width, items[..k]) && AllFit(t, width, items[k..])
  {
    hide Fits;
  }

  // The first block of an array and the image of the elements after it.
  lemma {:induction false} DataSplit(t: EclArrType, width: nat, ix: bool, items: seq<Item>)
    requires AllFit(t, width, items) && WidthOk(t, width) && items != []
    ensures
      var k := if |items| > BlockElements(t) then BlockElements(t) else |items|;
      && AllFit(t, width, items[..k]) && AllFit(t, width, items[k..])
      && |Payload(t, width, ix, items[..k])| <= INT_MAX
      && DataBytes(t, width, ix, items)
         == Frame(Payload(t, width, ix, items[..k])) + DataBytes(t, width, ix, items[k..])
  {
    hide Payload, Frame, Times, ElementBytes, Fits, MaxBlock;
    var p := Payload(t, width, ix, items);
    var k, w, m := BlockElements(t), ElementBytes(t, width), MaxBlock(t, width);
    FitSlices(t, width, items, if |items| > k then k else |items|);
    BlockQuotient(t, width);
    if |items| > k {
      TimesMonotone(k, |items|, w);
      PayloadSplit(t, width, ix, items, k);
    } else {
      TimesMonotone(|items|, k, w);
      TimesMonotone(1, |items|, w);
      TimesIs(1, w);
      assert items[..|items|] == items && items[|items|..] == [];
      EmptyBlocks(m, t, width, ix);
    }
  }

  // readBinaryArray undoes writeBinaryArray at every length and for every type.
  lemma {:induction false} ReadWrittenBlocks(t: EclArrType, width: nat, ix: bool, items: seq<Item>, rest: seq<byte>)
    requires AllFit(t, width, items) && WidthOk(t, width) && ElementBytes(t, width) > 0
    ensures ReadBlocks(DataBytes(t, width, ix, items) + rest, |items|, t, width)
         == Ok(Loaded(AllCanonical(items), rest))
    decreases |items|
  {
    hide ReadBlocks, Payload, Frame, Times, ElementBytes, Fits, AllCanonical, BlockElements, DataBytes;
    if items == [] {
      EmptyArray(t, width, ix, rest);
    } else {
      var k := if |items| > BlockElements(t) then BlockElements(t) else |items|;
      var others := DataBytes(t, width, ix, items[k..]) + rest;
      DataSplit(t, width, ix, items);
      Assoc(Frame(Payload(t, width, ix, items[..k])), DataBytes(t, width, ix, items[k..]), rest);
      ReadWrittenBlocks(t, width, ix, items[k..], rest);
      ReadOneBlock(|items|, t, width, ix, items[..k], others);
      AllCanonicalConcat(items[..k], items[k..]);
      assert items[..k] + items[k..] == items;
    }
  }

  lemma {:induction false} EmptyArray(t: EclArrType, width: nat, ix: bool, rest: seq<byte>)
    requires WidthOk(t, width) && ElementBytes(t, width) > 0
    ensures ReadBlocks(DataBytes(t, width, ix, []) + rest, 0, t, width) == Ok(Loaded(AllCanonical([]), rest))
  {
    BlockQuotient(t, width);
    EmptyBlocks(MaxBlock(t, width), t, width, ix);
    assert [] + rest == rest;
    assert AllCanonical([]) == [];
  }
}
