// How far the unformatted writer goes: exactly which arrays come back from the file
// that it leaves behind, and inputs for each way in which one does not.

module WriterLimits {
  import opened Bytes
  import opened Arith
  import opened Text
  import opened EclData
  import opened BinaryFormat
  import opened EclHeader
  import opened EclIndex
  import opened EclOutput

  // Where the counter of bytes wraps around, less is written than belongs there.
  lemma {:induction false} WrittenShort(ix: bool, a: Arr)
    requires Shaped(a)
    ensures |WrittenData(ix, a)| <= |DataBytes(a.typ, a.width, ix, a.items)|
    ensures |WrittenData(ix, a)| < |DataBytes(a.typ, a.width, ix, a.items)| <==> !CounterFits(a)
  {
    hide Payload, Times, CountedBlocks, Blocks, Wrap32, AllFit, MaxBlock;
    StringDataIntact(ix, a);
    if !CounterFits(a) {
      var n, w := |a.items|, a.width;
      BlockQuotient(a.typ, w);
      TimesIs(n, w);
      CharCounterBounded(n, w);
      CountedBlocksShort(Payload(a.typ, w, ix, a.items), CharCounter(n, w), MaxBlock(a.typ, w), w);
    }
  }

  // The closed-form size is that of the data written exactly if the counter holds it.
  lemma {:induction false} SizeOnDiskIff(ix: bool, a: Arr)
    requires Shaped(a)
    ensures SizeOnDiskBinary(|a.items|, a.typ, a.width) == Ok(|WrittenData(ix, a)|) <==> CounterFits(a)
  {
    hide WrittenData, DataBytes, SizeOnDiskBinary, AllFit, CounterFits;
    WrittenShort(ix, a);
    SizeOnDiskIsDataLength(a.typ, a.width, ix, a.items);
  }

  /** The array is indexed and loaded from the file the writer leaves as it was handed over. */
  ghost predicate ComesBack(ix: bool, a: Arr)
    requires Shaped(a) && |a.name| <= 8
  {
    var f := Image(ix, a);
    Index(f, 0) == Ok([EntryOf(a, 0)]) && LoadEntry(f, EntryOf(a, 0)) == Ok(AllCanonical(a.items))
  }

  // An array comes back exactly if an int can count the bytes of its strings, three
  // digits can show the width of its elements, and a double can hold their number.
  lemma {:induction false} ComesBackIff(ix: bool, a: Arr)
    requires Shaped(a) && |a.name| <= 8
    ensures ComesBack(ix, a) <==>
      CounterFits(a) && (a.typ.C0NN? ==> a.width <= 999) && |a.items| % Ulp(|a.items|) == 0
  {
    hide Shaped, CounterFits, Ulp, Image, Index, LoadEntry, AllCanonical;
    if Writable(a) {
      ImageOfWritable(ix, a);
      AloneIsFile(ix, a);
    } else if ComesBack(ix, a) {
      WidthShown(ix, a);
      CountShown(ix, a);
      DataThere(ix, a);
    }
  }

  lemma {:induction false} AloneIsFile(ix: bool, a: Arr)
    requires Writable(a)
    ensures Index(EncodeArr(ix, a), 0) == Ok([EntryOf(a, 0)])
    ensures LoadEntry(EncodeArr(ix, a), EntryOf(a, 0)) == Ok(AllCanonical(a.items))
  {
    hide AllFit, CounterFits, Ulp, EncodeArr, Index, LoadEntry, AllCanonical, EntryOf;
    IndexStep(ix, a, [], 0);
    EmptyIndex(|EncodeArr(ix, a)|);
    LoadWritten(EncodeArr(ix, a), [], ix, a, []);
    assert EncodeArr(ix, a) + [] == EncodeArr(ix, a) == [] + (EncodeArr(ix, a) + []);
    assert [EntryOf(a, 0)] + [] == [EntryOf(a, 0)];
  }

  lemma EmptyIndex(pos: nat)
    ensures Index([], pos) == Ok([])
  {}

  // The first entry of an index is what the first header says.
  lemma {:induction false} FirstEntry(f: seq<byte>, e: Entry)
    requires Index(f, 0) == Ok([e])
    ensures ReadHeader(f).Ok?
    ensures e.size == ReadHeader(f).value.size && e.elementSize == ReadHeader(f).value.elementSize
    ensures e.typ == ReadHeader(f).value.typ
  {
    hide ReadHeader, SkipLength;
    assert Index(f, 0).value[0] == e;
  }

  lemma {:induction false} WidthShown(ix: bool, a: Arr)
    requires Shaped(a) && |a.name| <= 8 && Index(Image(ix, a), 0) == Ok([EntryOf(a, 0)])
    ensures a.typ.C0NN? ==> a.width <= 999
  {
    hide Shaped, Image, Index, ReadHeader;
    FirstEntry(Image(ix, a), EntryOf(a, 0));
  }

  lemma {:induction false} CountShown(ix: bool, a: Arr)
    requires Shaped(a) && |a.name| <= 8 && Index(Image(ix, a), 0) == Ok([EntryOf(a, 0)])
    requires a.typ.C0NN? ==> a.width <= 999
    ensures |a.items| % Ulp(|a.items|) == 0
  {
    hide Index, ReadHeader, Ulp, HeaderBytes, WrittenData, AllFit;
    FirstEntry(Image(ix, a), EntryOf(a, 0));
    CountRoundTrip(a.name, |a.items|, a.typ, a.width, WrittenData(ix, a));
  }

  lemma {:induction false} DataThere(ix: bool, a: Arr)
    requires Shaped(a) && |a.name| <= 8
    requires LoadEntry(Image(ix, a), EntryOf(a, 0)) == Ok(AllCanonical(a.items))
    ensures CounterFits(a)
  {
    if !CounterFits(a) {
      hide AllFit, WrittenData, DataBytes, HeaderBytes, ReadBlocks, SizeOnDiskBinary, AllCanonical;
      var h := HeaderBytes(a.name, |a.items|, a.typ, a.width);
      SplitAt(h, WrittenData(ix, a));
      BlockQuotient(a.typ, a.width);
      assert EntryOf(a, 0).pos == |h|;
      ReadNeeds(WrittenData(ix, a), |a.items|, a.typ, a.width);
      WrittenShort(ix, a);
      SizeOnDiskIsDataLength(a.typ, a.width, ix, a.items);
    }
  }

  // ------------------------------------------------------------------
  // Inputs

  // Of 2^28 strings of eight chars nothing is written behind the header.
  lemma {:induction false} NothingWritten(ix: bool, a: Arr)
    requires Shaped(a) && a.typ.CHAR? && |a.items| == 0x1000_0000
    ensures WrittenData(ix, a) == [] && !CounterFits(a)
  {
    hide AllFit, Payload;
    assert CharCounter(|a.items|, 8) == -TWO31;
  }

  // Elements of 1234 chars are announced as elements of 123.
  lemma {:induction false} WideTag()
    ensures TypeTag(C0NN, 1234) == "C123"
    ensures ParseTag("C123") == Ok(Typed(C0NN, 123))
  {
    hide Decimal, Stoi;
    FourDigits();
    ThreeDigits();
    assert "C123"[1..4] == "123";
  }

  lemma {:induction false} FourDigits()
    ensures Decimal(1234) == "1234"
  {
    assert Decimal(1) == "1";
    assert Decimal(12) == "12";
    assert Decimal(123) == "123";
  }

  lemma {:induction false} ThreeDigits()
    ensures Stoi("123") == Some(123)
  {
    var d: seq<byte> := "123";
    StoiOfDigits(d, []);
    hide Stoi;
    assert d + [] == d;
    assert d[..2] == "12" && "12"[..1] == "1" && "1"[..0] == [];
    assert DigitsValue("1") == 1;
    assert DigitsValue("12") == 12;
  }

  // The smallest count that no double holds.
  lemma {:induction false} OddCount()
    ensures forall n: nat :: n < 0x20_0000_0000_0001 ==> n % Ulp(n) == 0
    ensures 0x20_0000_0000_0001 % Ulp(0x20_0000_0000_0001) != 0
  {
    assert Ulp(0x20_0000_0000_0000 / 2) == 1 && Ulp(0x20_0000_0000_0001 / 2) == 1;
    assert Ulp(0x20_0000_0000_0000) == 2 && Ulp(0x20_0000_0000_0001) == 2;
  }
}
