// The writer: EclOutput over the contents of one file.

module EclOutput {
  import opened Bytes
  import opened Arith
  import opened Text
  import opened EclData
  import opened BinaryFormat
  import opened EclHeader
  import opened EclIndex
  import Layout = BinaryLayout

  /** The contents of a file behind an output stream; writes go to its end. */
  class File {
    var content: seq<byte>

    constructor (initial: seq<byte>)
      ensures content == initial
    {
      content := initial;
    }

    method Append(s: seq<byte>)
      modifies this
      ensures content == old(content) + s
    {
      content := content + s;
    }
  }

  /** What the writer leaves behind for one array: its image, with the data of a
      string array cut short where the int counter wraps around. */
  function Image(ix: bool, a: Arr): seq<byte>
    requires Shaped(a) && |a.name| <= 8
  {
    HeaderBytes(a.name, |a.items|, a.typ, a.width) + WrittenData(ix, a)
  }

  function WrittenData(ix: bool, a: Arr): seq<byte>
    requires Shaped(a)
  {
    var p := Payload(a.typ, a.width, ix, a.items);
    if a.typ.CHAR? || a.typ.C0NN? then
      BlockQuotient(a.typ, a.width);
      CharCounterBounded(|a.items|, a.width);
      TimesIs(|a.items|, a.width);
      CountedBlocks(p, CharCounter(|a.items|, a.width), MaxBlock(a.typ, a.width), a.width)
    else DataBytes(a.typ, a.width, ix, a.items)
  }

  // All the data of a string array is written exactly when an int can count its bytes.
  lemma {:induction false} StringDataIntact(ix: bool, a: Arr)
    requires Shaped(a)
    ensures WrittenData(ix, a) == DataBytes(a.typ, a.width, ix, a.items) <==> CounterFits(a)
  {
    hide Payload, Times, CountedBlocks, Blocks, Wrap32, AllFit, MaxBlock;
    if a.typ.CHAR? || a.typ.C0NN? {
      var n, w := |a.items|, a.width;
      var p := Payload(a.typ, w, ix, a.items);
      BlockQuotient(a.typ, w);
      TimesIs(n, w);
      CharCounterBounded(n, w);
      if n * w < TWO31 {
        CharCounterExact(n, w);
        CountedBlocksExact(p, n, BlockElements(a.typ), w);
      } else {
        CountedBlocksShort(p, CharCounter(n, w), MaxBlock(a.typ, w), w);
      }
    }
  }

  // Byte by byte, what is left behind is the array, if all of its data is.
  lemma {:induction false} ImageLaidOut(before: seq<byte>, ix: bool, a: Arr)
    requires Shaped(a) && |a.name| <= 8 && CounterFits(a)
    ensures Layout.ArrayAt(before + Image(ix, a), |before|, ix, a)
  {
    hide HeaderBytes, DataBytes, AllFit, CounterFits, Layout.ArrayAt, Layout.Has, WrittenData;
    StringDataIntact(ix, a);
    Layout.Appended(before, Image(ix, a));
    Layout.ArrayLaidOut(before + Image(ix, a), |before|, ix, a);
  }

  class EclOutput {
    const file: File
    const ixStandard: bool

    constructor (file: File, ix: bool)
      ensures this.file == file && ixStandard == ix
    {
      this.file := file;
      ixStandard := ix;
    }

    method WriteInt(flipped: int32)
      modifies file
      ensures file.content == old(file.content) + NativeBytes(flipped)
    {
      file.Append(NativeBytes(flipped));
    }

    /** One 24-byte header record. */
    method WriteRecord(name: seq<byte>, size: int32, tag: seq<byte>)
      requires |name| == 8 && |tag| == 4
      modifies file
      ensures file.content == old(file.content) + Record(name, size, tag)
    {
      hide BigEndian, NativeBytes, FlipEndianInt;
      var bhead := FlipEndianInt(16);
      FlipWrites(16);
      FlipWrites(size);
      WriteInt(bhead);
      file.Append(name);
      WriteInt(FlipEndianInt(size));
      file.Append(tag);
      WriteInt(bhead);
      ghost var e, n := BigEndian(16), BigEndian(size);
      assert file.content == old(file.content) + (e + (name + (n + (tag + e))));
    }

    method WriteBinaryHeader(arrName: seq<byte>, count: nat, arrType: EclArrType, elementSize: nat)
      returns (r: Result<()>)
      requires count < MAX_COUNT
      modifies file
      ensures r == if |arrName| <= 8 then Ok(()) else Err(LengthError)
      ensures file.content == old(file.content)
              + if |arrName| <= 8 then HeaderBytes(arrName, count, arrType, elementSize) else []
    {
      hide Record, TypeTag, PadRight;
      if |arrName| > 8 {
        return Err(LengthError);
      }
      var name := PadRight(arrName, 8);
      var size := count;
      if size > INT_MAX {
        var x231 := size / TWO31;
        WriteRecord(name, -x231, "X231");
        size := size - x231 * TWO31;
      }
      WriteRecord(name, size, TypeTag(arrType, elementSize));
      r := Ok(());
    }

    /** The loop over the elements of one block, between its head and its tail. */
    method WriteBlock(arrType: EclArrType, width: nat, data: seq<Item>, from: nat, num: nat)
      requires AllFit(arrType, width, data) && from + num <= |data|
      requires Times(num, ElementBytes(arrType, width)) <= INT_MAX
      modifies file
      ensures |Payload(arrType, width, ixStandard, data[from..from + num])| <= INT_MAX
      ensures file.content == old(file.content) + Frame(Payload(arrType, width, ixStandard, data[from..from + num]))
    {
      hide BigEndian, NativeBytes, FlipEndianInt, ItemBytes, Payload, Times, ElementBytes, Fits;
      var bytes := Times(num, ElementBytes(arrType, width));
      var dhead := FlipEndianInt(bytes);
      FlipWrites(bytes);
      WriteInt(dhead);
      ghost var start := file.content;
      assert Payload(arrType, width, ixStandard, data[from..from]) == [] by { EmptyPayload(arrType, width, ixStandard); }
      for i := 0 to num
        invariant file.content == start + Payload(arrType, width, ixStandard, data[from..from + i])
      {
        file.Append(ItemBytes(arrType, width, ixStandard, data[from + i]));
        PayloadGrows(arrType, width, ixStandard, data, from, from + i);
      }
      WriteInt(dhead);
      assert file.content == old(file.content) + Frame(Payload(arrType, width, ixStandard, data[from..from + num]));
    }

    method WriteBinaryArray(arrType: EclArrType, width: nat, data: seq<Item>)
      requires AllFit(arrType, width, data) && WidthOk(arrType, width)
      requires !arrType.CHAR? && !arrType.C0NN?
      modifies file
      ensures file.content == old(file.content) + DataBytes(arrType, width, ixStandard, data)
    {
      hide Payload, Times, Frame, Fits, Blocks, MaxBlock, BlockElements, ElementBytes;
      BlockQuotient(arrType, width);
      var sizeOfElement := ElementBytes(arrType, width);
      var maxBlockSize := MaxBlock(arrType, width);
      var maxNumberOfElements := maxBlockSize / sizeOfElement;
      var n: nat := 0;
      var rest: int := |data| * sizeOfElement;
      TimesIs(|data|, sizeOfElement);
      assert data[0..] == data;
      while rest > 0
        invariant n <= |data| && rest == Times(|data| - n, sizeOfElement)
        invariant file.content + Blocks(Payload(arrType, width, ixStandard, data[n..]), maxBlockSize)
               == old(file.content) + DataBytes(arrType, width, ixStandard, data)
        decreases |data| - n
      {
        var num: nat;
        ghost var p := Payload(arrType, width, ixStandard, data[n..]);
        RoundArith(|data| - n, rest, maxNumberOfElements, sizeOfElement);
        TimesDiv(|data| - n, sizeOfElement);
        if rest > maxBlockSize {
          rest := rest - maxBlockSize;
          num := maxNumberOfElements;
        } else {
          num := rest / sizeOfElement;
          rest := 0;
        }
        NextBlock(arrType, width, ixStandard, data, n, num);
        BlocksStep(file.content, p, Times(num, sizeOfElement), maxBlockSize);
        WriteBlock(arrType, width, data, n, num);
        n := n + num;
      }
      if n < |data| { TimesMonotone(1, |data| - n, sizeOfElement); TimesIs(1, sizeOfElement); }
      assert data[n..] == [];
      EmptyBlocks(maxBlockSize, arrType, width, ixStandard);
    }

    method WriteBinaryCharArray(arrType: EclArrType, width: nat, data: seq<Item>)
      requires AllFit(arrType, width, data) && WidthOk(arrType, width)
      requires (arrType.CHAR? && width == 8) || (arrType.C0NN? && 8 <= width)
      ensures Counted(arrType, width, data, 0, CharCounter(|data|, width))
      modifies file
      ensures file.content == old(file.content)
              + Pending(arrType, width, ixStandard, data, 0, CharCounter(|data|, width))
    {
      hide Pending, Times, Frame, Payload, CharCounter, Counted, MaxBlock, BlockElements, ElementBytes, AllFit;
      StartCounting(arrType, width, data);
      var sizeOfElement := ElementBytes(arrType, width);
      var maxBlockSize := MaxBlock(arrType, width);
      var maxNumberOfElements := maxBlockSize / sizeOfElement;
      var rest: int := CharCounter(|data|, sizeOfElement);
      var n: nat := 0;
      while rest > 0
        invariant Counted(arrType, width, data, n, rest)
        invariant file.content + Pending(arrType, width, ixStandard, data, n, rest)
               == old(file.content) + Pending(arrType, width, ixStandard, data, 0, CharCounter(|data|, width))
        decreases rest
      {
        var num: nat;
        PendingStep(file.content, arrType, width, ixStandard, data, n, rest);
        if rest > maxBlockSize {
          rest := rest - maxBlockSize;
          num := maxNumberOfElements;
        } else {
          num := rest / sizeOfElement;
          rest := 0;
        }
        WriteBlock(arrType, width, data, n, num);
        n := n + num;
      }
      NothingPending(arrType, width, ixStandard, data, n, rest);
    }

    /** write(name, data) for vectors of int, float, double, bool and, with no
        elements, char. */
    method Write(name: seq<byte>, arrType: EclArrType, data: seq<Item>) returns (r: Result<()>)
      requires !arrType.CHAR? && !arrType.C0NN?
      requires |data| < MAX_COUNT && AllFit(arrType, ElementSize(arrType, 0), data)
      modifies file
      ensures r == if |name| <= 8 then Ok(()) else Err(LengthError)
      ensures file.content == old(file.content)
              + if |name| <= 8 then Image(ixStandard, Arr(name, arrType, ElementSize(arrType, 0), data)) else []
      ensures |name| <= 8 ==>
        Layout.ArrayAt(file.content, |old(file.content)|, ixStandard, Arr(name, arrType, ElementSize(arrType, 0), data))
    {
      hide HeaderBytes, DataBytes, Payload, Layout.ArrayAt;
      ghost var before := file.content;
      assert data != [] ==> Fits(arrType, ElementSize(arrType, 0), data[0]);
      var elementSize := ElementSize(arrType, 0);
      r := WriteBinaryHeader(name, |data|, arrType, elementSize);
      if r.Ok? {
        if !arrType.MESS? {
          WriteBinaryArray(arrType, elementSize, data);
        } else {
          NoData(arrType, elementSize, ixStandard);
        }
        ImageLaidOut(before, ixStandard, Arr(name, arrType, elementSize, data));
      }
    }

    method Message(msg: seq<byte>) returns (r: Result<()>)
      modifies file
      ensures r == if |msg| <= 8 then Ok(()) else Err(LengthError)
      ensures file.content == old(file.content)
              + if |msg| <= 8 then Image(ixStandard, Arr(msg, MESS, 4, [])) else []
    {
      r := Write(msg, MESS, []);
    }

    /** write<std::string>: CHAR while every string has at most eight chars, else
        C0NN as wide as the longest. */
    method WriteStrings(name: seq<byte>, data: seq<seq<byte>>) returns (r: Result<()>)
      requires |data| < MAX_COUNT && 105 * MaxLength(data) <= INT_MAX
      modifies file
      ensures r == if |name| <= 8 then Ok(()) else Err(LengthError)
      ensures Shaped(StringArr(name, data))
      ensures file.content == old(file.content)
              + if |name| <= 8 then Image(ixStandard, StringArr(name, data)) else []
      ensures |name| <= 8 && CounterFits(StringArr(name, data)) ==>
        Layout.ArrayAt(file.content, |old(file.content)|, ixStandard, StringArr(name, data))
    {
      hide HeaderBytes, WrittenData, Layout.ArrayAt, CounterFits, MaxLength, Strings;
      StringArrShaped(name, data);
      ghost var before := file.content;
      assert data == [] ==> MaxLength(data) == 0 by { NoStrings(data); }
      var maximumLength := 8;
      if |data| > 0 {
        maximumLength := MaxLength(data);
      }
      if maximumLength > 8 {
        r := WriteStringArray(name, C0NN, maximumLength, Strings(data));
      } else {
        r := WriteStringArray(name, CHAR, 8, Strings(data));
      }
      if |name| <= 8 && CounterFits(StringArr(name, data)) {
        ImageLaidOut(before, ixStandard, StringArr(name, data));
      }
    }

    /** write(name, data, element_size): always C0NN, at least eight chars wide. A
        negative size passes the test, and is taken for eight. */
    method WriteC0nn(name: seq<byte>, data: seq<seq<byte>>, elementSize: int32) returns (r: Result<()>)
      requires |data| < MAX_COUNT && 105 * elementSize <= INT_MAX
      requires elementSize < 0 ==> MaxLength(data) <= 8
      modifies file
      ensures r == if 0 <= elementSize < MaxLength(data) then Err(StringTooLong)
                   else if |name| <= 8 then Ok(()) else Err(LengthError)
      ensures r.Err? ==> file.content == old(file.content)
      ensures r.Ok? ==>
        var a := Arr(name, C0NN, if elementSize > 8 then elementSize else 8, Strings(data));
        && Shaped(a) && file.content == old(file.content) + Image(ixStandard, a)
        && (CounterFits(a) ==> Layout.ArrayAt(file.content, |old(file.content)|, ixStandard, a))
    {
      hide HeaderBytes, WrittenData, Layout.ArrayAt, CounterFits, MaxLength, Strings;
      assert data == [] ==> MaxLength(data) == 0 by { NoStrings(data); }
      ghost var before := file.content;
      ghost var a := Arr(name, C0NN, if elementSize > 8 then elementSize else 8, Strings(data));
      if |data| > 0 {
        if MaxLength(data) > Unsigned(elementSize) {
          return Err(StringTooLong);
        }
      }
      if elementSize > 8 {
        r := WriteStringArray(name, C0NN, elementSize, Strings(data));
      } else {
        r := WriteStringArray(name, C0NN, 8, Strings(data));
      }
      if r.Ok? && CounterFits(a) {
        ImageLaidOut(before, ixStandard, a);
      }
    }

    /** Header and data of a string array. */
    method WriteStringArray(name: seq<byte>, arrType: EclArrType, width: nat, data: seq<Item>) returns (r: Result<()>)
      requires arrType.CHAR? || arrType.C0NN?
      requires Shaped(Arr(name, arrType, width, data))
      modifies file
      ensures r == if |name| <= 8 then Ok(()) else Err(LengthError)
      ensures file.content == old(file.content)
              + if |name| <= 8 then Image(ixStandard, Arr(name, arrType, width, data)) else []
    {
      hide HeaderBytes, Payload, CountedBlocks, CharCounter, Times;
      r := WriteBinaryHeader(name, |data|, arrType, width);
      if r.Ok? {
        WriteBinaryCharArray(arrType, width, data);
        assert data[0..] == data;
      }
    }
  }

  function Strings(data: seq<seq<byte>>): (items: seq<Item>)
    ensures |items| == |data|
    ensures forall i :: 0 <= i < |data| ==> items[i] == Str(data[i])
  {
    seq(|data|, i requires 0 <= i < |data| => Str(data[i]))
  }

  /** Length of the longest string, as std::max_element finds it. */
  function MaxLength(data: seq<seq<byte>>): (n: nat)
    ensures forall i :: 0 <= i < |data| ==> |data[i]| <= n
    ensures n > 0 ==> exists i :: 0 <= i < |data| && |data[i]| == n
  {
    if data == [] then 0
    else
      var n := MaxLength(data[1..]);
      assert forall i :: 1 <= i < |data| ==> data[i] == data[1..][i - 1];
      if |data[0]| > n then |data[0]| else n
  }

  lemma NoStrings(data: seq<seq<byte>>)
    ensures data == [] ==> MaxLength(data) == 0
  {}

  /** The array write<std::string> makes of a list of strings. */
  function StringArr(name: seq<byte>, data: seq<seq<byte>>): Arr {
    if MaxLength(data) > 8 then Arr(name, C0NN, MaxLength(data), Strings(data))
    else Arr(name, CHAR, 8, Strings(data))
  }

  lemma {:induction false} StringArrShaped(name: seq<byte>, data: seq<seq<byte>>)
    requires |data| < MAX_COUNT && 105 * MaxLength(data) <= INT_MAX
    ensures Shaped(StringArr(name, data))
  {
    hide MaxLength, Strings;
  }

  lemma {:induction false} NoData(t: EclArrType, width: nat, ix: bool)
    requires WidthOk(t, width)
    ensures DataBytes(t, width, ix, []) == []
  {
    BlockQuotient(t, width);
    EmptyBlocks(MaxBlock(t, width), t, width, ix);
  }

  // What is written for an array that can come back is its image in the file format.
  lemma {:induction false} ImageOfWritable(ix: bool, a: Arr)
    requires Writable(a)
    ensures Image(ix, a) == EncodeArr(ix, a)
  {
    StringDataIntact(ix, a);
  }

  /** What a loop over string data relies on: n elements are written and at most
      the bytes of the others are counted. */
  ghost predicate Counted(t: EclArrType, width: nat, data: seq<Item>, n: nat, rest: int) {
    && AllFit(t, width, data) && WidthOk(t, width)
    && ((t.CHAR? && width == 8) || (t.C0NN? && 8 <= width))
    && n <= |data| && rest <= Times(|data| - n, width)
  }

  /** The blocks still to be written. */
  ghost function Pending(t: EclArrType, width: nat, ix: bool, data: seq<Item>, n: nat, rest: int): seq<byte>
    requires Counted(t, width, data, n, rest)
  {
    BlockQuotient(t, width);
    CountedBlocks(Payload(t, width, ix, data[n..]), rest, MaxBlock(t, width), width)
  }

  lemma {:induction false} StartCounting(t: EclArrType, width: nat, data: seq<Item>)
    requires AllFit(t, width, data) && WidthOk(t, width)
    requires (t.CHAR? && width == 8) || (t.C0NN? && 8 <= width)
    ensures Counted(t, width, data, 0, CharCounter(|data|, width))
    ensures ElementBytes(t, width) == width && 0 < MaxBlock(t, width)
    ensures MaxBlock(t, width) / width == BlockElements(t)
  {
    TimesIs(|data|, width);
    CharCounterBounded(|data|, width);
    BlockQuotient(t, width);
  }

  lemma NothingPending(t: EclArrType, width: nat, ix: bool, data: seq<Item>, n: nat, rest: int)
    requires Counted(t, width, data, n, rest) && rest <= 0
    ensures Pending(t, width, ix, data, n, rest) == []
  {}

  /** Elements a loop writes in one round with `rest` bytes to go. */
  function RoundSize(rest: nat, m: nat, k: nat, w: nat): nat
    requires w > 0
  {
    if rest > m then k else rest / w
  }

  // One round of the loop over string data.
  lemma {:induction false} PendingStep(written: seq<byte>, t: EclArrType, width: nat, ix: bool, data: seq<Item>,
                                       n: nat, rest: int)
    requires Counted(t, width, data, n, rest) && rest > 0
    ensures
      var m := MaxBlock(t, width);
      var num := RoundSize(rest, m, BlockElements(t), width);
      var left := if rest > m then rest - m else 0;
      && left < rest
      && n + num <= |data| && Counted(t, width, data, n + num, left)
      && Times(num, ElementBytes(t, width)) <= INT_MAX
      && |Payload(t, width, ix, data[n..n + num])| <= INT_MAX
      && written + Pending(t, width, ix, data, n, rest)
         == written + Frame(Payload(t, width, ix, data[n..n + num])) + Pending(t, width, ix, data, n + num, left)
  {
    hide Payload, Times, Frame, Fits, CountedBlocks, BlockElements, MaxBlock;
    var k, m := BlockElements(t), MaxBlock(t, width);
    BlockQuotient(t, width);
    RoundArith(|data| - n, rest, k, width);
    NextBlock(t, width, ix, data, n, RoundSize(rest, m, k, width));
    CountedStep(written, Payload(t, width, ix, data[n..]), rest, m, k, width);
  }

  // The elements of one round are there, and what is counted after it still is.
  lemma {:induction false} RoundArith(left: nat, rest: nat, k: nat, w: nat)
    requires 0 < w && 0 < rest <= Times(left, w)
    ensures
      var num := RoundSize(rest, Times(k, w), k, w);
      && num <= left && Times(num, w) <= rest
      && Times(left, w) == Times(num, w) + Times(left - num, w)
  {
    DivTimes(rest, w);
    var num := if rest > Times(k, w) then k else rest / w;
    if left < num { TimesMonotone(left, num, w); }
    TimesAdd(num, left - num, w);
  }

  // One round of a writer loop moves a frame from the blocks to come to the file.
  lemma {:induction false} BlocksStep(written: seq<byte>, p: seq<byte>, cut: nat, m: nat)
    requires 0 < m <= INT_MAX
    requires (cut == m && |p| > m) || (cut == |p| && 0 < |p| <= m)
    ensures written + Blocks(p, m) == written + Frame(p[..cut]) + Blocks(p[cut..], m)
  {
    hide Frame;
    Assoc(written, Frame(p[..cut]), Blocks(p[cut..], m));
    if |p| <= m {
      assert p[..cut] == p && p[cut..] == [];
    }
  }

  lemma {:induction false} CountedStep(written: seq<byte>, p: seq<byte>, rest: int, m: nat, k: nat, w: nat)
    requires 0 < w && 0 < m <= INT_MAX && 0 < rest <= |p| && m == Times(k, w)
    ensures
      var cut := Times(RoundSize(rest, m, k, w), w);
      var left := if rest > m then rest - m else 0;
      && cut <= rest && cut <= INT_MAX && left <= |p| - cut
      && written + CountedBlocks(p, rest, m, w) == written + Frame(p[..cut]) + CountedBlocks(p[cut..], left, m, w)
  {
    hide Frame, Times;
    DivTimes(rest, w);
    var cut := if rest > m then m else Times(rest / w, w);
    Assoc(written, Frame(p[..cut]), CountedBlocks(p[cut..], if rest > m then rest - m else 0, m, w));
  }

  lemma EmptyPayload(t: EclArrType, width: nat, ix: bool)
    ensures Payload(t, width, ix, []) == []
  {}

  lemma {:induction false} PayloadGrows(t: EclArrType, width: nat, ix: bool, data: seq<Item>, from: nat, to: nat)
    requires AllFit(t, width, data) && from <= to < |data|
    ensures Payload(t, width, ix, data[from..to + 1])
         == Payload(t, width, ix, data[from..to]) + ItemBytes(t, width, ix, data[to])
  {
    hide ItemBytes, Times, ElementBytes, Fits;
    assert data[from..to + 1] == data[from..to] + [data[to]];
    PayloadConcat(t, width, ix, data[from..to], [data[to]]);
    assert [data[to]][1..] == [];
    assert Payload(t, width, ix, [data[to]]) == ItemBytes(t, width, ix, data[to]);
  }

  lemma Slices<T>(data: seq<T>, n: nat, num: nat)
    requires n + num <= |data|
    ensures data[n..][..num] == data[n..n + num] && data[n..][num..] == data[n + num..]
  {}

  ghost predicate Cuts(p: seq<byte>, cut: nat, a: seq<byte>, b: seq<byte>) {
    cut <= |p| && p[..cut] == a && p[cut..] == b
  }

  // The payload of the elements from n on starts with that of the next num.
  lemma {:induction false} NextBlock(t: EclArrType, width: nat, ix: bool, data: seq<Item>, n: nat, num: nat)
    requires AllFit(t, width, data) && n + num <= |data|
    ensures Cuts(Payload(t, width, ix, data[n..]), Times(num, ElementBytes(t, width)),
                 Payload(t, width, ix, data[n..n + num]), Payload(t, width, ix, data[n + num..]))
  {
    hide Payload, Times, ElementBytes, Fits;
    Slices(data, n, num);
    PayloadSplit(t, width, ix, data[n..], num);
  }
}
