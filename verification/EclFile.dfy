// The reader: a stream over the bytes of a file, the array reader of eclutil.cc,
// and EclFile with its index and its lazily loaded arrays.

module EclFile {
  import opened Bytes
  import opened Arith
  import opened Text
  import opened EclData
  import opened BinaryFormat
  import opened EclHeader
  import opened EclIndex

  /** A file opened for reading and its position, which may lie past the end. */
  class InStream {
    const content: seq<byte>
    var pos: nat

    constructor (content: seq<byte>)
      ensures this.content == content && pos == 0
    {
      this.content := content;
      pos := 0;
    }

    /** The bytes from the position on. */
    ghost function Rest(): seq<byte>
      reads this
    {
      RestAt(pos)
    }

    ghost function RestAt(p: nat): seq<byte> {
      if p <= |content| then content[p..] else []
    }

    lemma ShortRest()
      ensures |Rest()| >= 4 <==> |content| - pos >= 4
    {}

    // Reading on by n bytes leaves the rest without its first n.
    lemma Advanced(from: nat, n: nat)
      requires pos == from + n && n <= |RestAt(from)|
      ensures Rest() == RestAt(from)[n..]
    {}

    method Seek(p: nat)
      modifies this
      ensures pos == p
    {
      pos := p;
    }

    /** seekg(n, cur). */
    method SeekOn(n: nat)
      modifies this
      ensures pos == old(pos) + n
      ensures Rest() == if n <= |old(Rest())| then old(Rest())[n..] else []
    {
      pos := pos + n;
    }

    method Read(n: nat) returns (r: Result<seq<byte>>)
      modifies this
      ensures |old(Rest())| >= n ==>
        r == Ok(old(Rest())[..n]) && Rest() == old(Rest())[n..] && pos == old(pos) + n
      ensures |old(Rest())| < n ==> r == Err(ShortRead) && pos == old(pos)
    {
      if n == 0 {
        r := Ok([]);
        assert Rest()[..0] == [] && Rest()[0..] == Rest();
      } else if pos + n <= |content| {
        assert content[pos..pos + n] == Rest()[..n] && content[pos + n..] == Rest()[n..];
        r := Ok(content[pos..pos + n]);
        pos := pos + n;
      } else {
        r := Err(ShortRead);
      }
    }

    method ReadBinaryInt() returns (r: Result<int32>)
      modifies this
      ensures r == ReadInt(old(Rest()))
      ensures r.Ok? ==> |old(Rest())| >= 4 && Rest() == old(Rest())[4..] && pos == old(pos) + 4
    {
      hide FromNative, BigEndianValue;
      var word :- Read(4);
      FlipReads(word);
      r := Ok(FlipEndianInt(FromNative(word)));
    }

    /** readFileHValue_ and the flip of its value. */
    method ReadValue(t: EclArrType, width: nat) returns (r: Result<Item>)
      modifies this
      ensures r == ReadItem(old(Rest()), t, width)
      ensures r.Ok? ==> |old(Rest())| >= ElementBytes(t, width) && pos == old(pos) + ElementBytes(t, width)
      ensures r.Ok? ==> Rest() == old(Rest())[ElementBytes(t, width)..]
    {
      hide RestAt, BigEndianValue, Trim;
      var bytes :- Read(ElementBytes(t, width));
      r := ItemValue(t, bytes);
    }

    /** The inner loop of readBinaryArray. */
    method ReadElements(num: nat, t: EclArrType, width: nat) returns (r: Result<seq<Item>>)
      modifies this
      ensures r == ReadItems(old(Rest()), num, t, width)
      ensures r.Ok? ==> pos == old(pos) + Times(num, ElementBytes(t, width))
    {
      hide ReadItem, ElementBytes, Times, ReadItems, RestAt, PrependItems;
      var arr: seq<Item> := [];
      ghost var start := Rest();
      PrependNothing(ReadItems(start, num, t, width), Ok(Loaded([], [])));
      TimesNext(0, ElementBytes(t, width));
      for i := 0 to num
        invariant pos == old(pos) + Times(i, ElementBytes(t, width))
        invariant ReadItems(start, num, t, width) == PrependItems(arr, ReadItems(Rest(), num - i, t, width))
      {
        StepItems(Rest(), num - i, t, width, arr);
        TimesNext(i, ElementBytes(t, width));
        var v := ReadValue(t, width);
        if v.Err? {
          return Err(v.error);
        }
        arr := arr + [v.value];
      }
      LastItems(Rest(), t, width, arr);
      r := Ok(arr);
    }

    method ReadBinaryArray(size: int, t: EclArrType, width: nat) returns (r: Result<seq<Item>>)
      requires WidthOk(t, width) && ElementBytes(t, width) > 0
      modifies this
      ensures match ReadBlocks(old(Rest()), size, t, width)
              case Ok(l) => r == Ok(l.items) && Rest() == l.rest
              case Err(e) => r == Err(e)
      ensures r.Ok? ==> pos + |Rest()| == old(pos) + |old(Rest())|
    {
      hide ReadInt, ReadItems, ElementBytes, MaxBlock, BlockElements, Times, RestAt, PrependLoaded, ReadBlocks;
      BlockQuotient(t, width);
      var sizeOfElement := ElementBytes(t, width);
      var maxNumberOfElements := MaxBlock(t, width) / sizeOfElement;
      var arr: seq<Item> := [];
      var rest := size;
      ghost var goal := ReadBlocks(Rest(), size, t, width);
      PrependNothing(Ok([]), goal);
      while rest > 0
        invariant goal == PrependLoaded(arr, ReadBlocks(Rest(), rest, t, width))
        invariant pos + |Rest()| == old(pos) + |old(Rest())|
        decreases rest
      {
        StepBlocks(Rest(), rest, t, width, arr);
        var head := ReadBinaryInt();
        if head.Err? {
          return Err(head.error);
        }
        var num := TruncDiv(head.value, sizeOfElement);
        if num > maxNumberOfElements || num < 0 {
          return Err(BlockHead);
        }
        ghost var from := pos;
        var items := ReadElements(num, t, width);
        if items.Err? {
          return Err(items.error);
        }
        Advanced(from, Times(num, sizeOfElement));
        rest := rest - num;
        if (num < maxNumberOfElements && rest != 0) || (num == maxNumberOfElements && rest < 0) {
          return Err(BlockCount);
        }
        var tail := ReadBinaryInt();
        if tail.Err? {
          return Err(tail.error);
        }
        if head.value != tail.value {
          return Err(BlockTail);
        }
        arr := arr + items.value;
      }
      LastBlocks(Rest(), rest, t, width, arr);
      r := Ok(arr);
    }

    /** One 24-byte header record. */
    method ReadHeaderRecord() returns (r: Result<RawHeader>)
      modifies this
      ensures r == ReadRecord(old(Rest()))
      ensures r.Ok? ==> |old(Rest())| >= HEADER_SIZE && pos == old(pos) + HEADER_SIZE
      ensures r.Ok? ==> Rest() == old(Rest())[HEADER_SIZE..]
    {
      hide RestAt, BigEndianValue;
      ghost var s := Rest();
      var bhead :- ReadBinaryInt();
      if bhead != 16 {
        return Err(HeaderSize);
      }
      var name :- Read(8);
      var size :- ReadBinaryInt();
      var tag :- Read(4);
      bhead :- ReadBinaryInt();
      RecordParts(s);
      if bhead != 16 {
        return Err(HeaderSize);
      }
      r := Ok(RawHeader(name, size, tag));
    }

    method ReadBinaryHeader() returns (r: Result<Header>)
      modifies this
      ensures r == ReadHeader(old(Rest()))
      ensures r.Ok? ==> r.value.length <= |old(Rest())| && pos == old(pos) + r.value.length
      ensures r.Ok? ==> Rest() == old(Rest())[r.value.length..]
    {
      hide RestAt, ReadRecord, ParseTag, CombinedSize;
      var first :- ReadHeaderRecord();
      if first.tag == "X231" {
        var x231exp := Wrap32(first.size * -1);
        var second :- ReadHeaderRecord();
        if first.name != second.name {
          return Err(HeaderX231);
        }
        if x231exp < 0 {
          return Err(HeaderX231);
        }
        var typed :- ParseTag(second.tag);
        r := Ok(Header(second.name, CombinedSize(second.size, x231exp), typed.typ, typed.elementSize, 2 * HEADER_SIZE));
      } else {
        var typed :- ParseTag(first.tag);
        r := Ok(Header(first.name, first.size, typed.typ, typed.elementSize, HEADER_SIZE));
      }
    }
  }

  // The fields of a record read one after the other.
  lemma RecordParts(s: seq<byte>)
    requires |s| >= HEADER_SIZE
    ensures s[4..][..8] == s[4..12] && s[4..][8..] == s[12..]
    ensures s[12..][4..] == s[16..] && s[16..][..4] == s[16..20] && s[16..][4..] == s[20..]
    ensures s[20..][4..] == s[24..]
  {}

  function MakeEntries(names: seq<seq<byte>>, types: seq<EclArrType>, sizes: seq<int>,
                       elementSizes: seq<int>, positions: seq<nat>): (es: seq<Entry>)
    requires |names| == |types| == |sizes| == |elementSizes| == |positions|
    ensures |es| == |names|
    ensures forall i :: 0 <= i < |es| ==> es[i] == Entry(names[i], types[i], sizes[i], elementSizes[i], positions[i])
  {
    seq(|names|, i requires 0 <= i < |names| => Entry(names[i], types[i], sizes[i], elementSizes[i], positions[i]))
  }

  class EclFile {
    const bytes: seq<byte>

    var arrayName: seq<seq<byte>>
    var arrayType: seq<EclArrType>
    var arraySize: seq<int>
    var arrayElementSize: seq<int>
    var streamPos: seq<nat>
    var arrayIndex: map<seq<byte>, nat>
    var arrayLoaded: seq<bool>
    var arrays: map<nat, seq<Item>>

    ghost predicate Aligned()
      reads `arrayName, `arrayType, `arraySize, `arrayElementSize, `streamPos
    {
      |arrayName| == |arrayType| == |arraySize| == |arrayElementSize| == |streamPos|
    }

    /** The index, one entry per array. */
    ghost function Entries(): (es: seq<Entry>)
      requires Aligned()
      reads `arrayName, `arrayType, `arraySize, `arrayElementSize, `streamPos
      ensures |es| == |arrayName|
      ensures forall i :: 0 <= i < |es| ==>
        es[i] == Entry(arrayName[i], arrayType[i], arraySize[i], arrayElementSize[i], streamPos[i])
    {
      MakeEntries(arrayName, arrayType, arraySize, arrayElementSize, streamPos)
    }

    /** Names map to the last array that bears them. */
    ghost predicate Indexed()
      reads `arrayName, `arrayType, `arraySize, `arrayElementSize, `streamPos, `arrayIndex
      ensures Indexed() ==> Aligned()
    {
      && Aligned()
      && (forall i :: 0 <= i < |arrayType| && arrayType[i].C0NN? ==> arrayElementSize[i] <= 999)
      && (forall k :: k in arrayIndex ==> arrayIndex[k] < |arrayName| && arrayName[arrayIndex[k]] == k)
      && (forall i :: 0 <= i < |arrayName| ==>
            arrayName[i] in arrayIndex && i <= arrayIndex[arrayName[i]])
    }

    /** What is kept of an array is what loading it yields. */
    ghost predicate Valid()
      reads this
      ensures Valid() ==> Aligned() && |arrayLoaded| == |arrayName|
    {
      && Indexed() && |arrayLoaded| == |arrayName|
      && (forall i :: i in arrays ==>
            i < |arrayName| && arrayLoaded[i] && LoadEntry(bytes, Entries()[i]) == Ok(arrays[i]))
    }

    /** Every array marked as loaded is there. */
    ghost predicate Complete()
      requires Valid()
      reads this
    {
      forall i :: 0 <= i < |arrayLoaded| && arrayLoaded[i] && !arrayType[i].MESS? ==> i in arrays
    }

    constructor (bytes: seq<byte>)
      ensures this.bytes == bytes
      ensures Valid() && Unloaded() && Entries() == []
    {
      this.bytes := bytes;
      arrayName, arrayType, arraySize, arrayElementSize, streamPos, arrayLoaded := [], [], [], [], [], [];
      arrayIndex, arrays := map[], map[];
    }

    /** Nothing is loaded. */
    ghost predicate Unloaded()
      reads this
    {
      arrays == map[] && forall i :: 0 <= i < |arrayLoaded| ==> !arrayLoaded[i]
    }

    lemma NothingMissing()
      requires Valid() && Unloaded()
      ensures Complete()
    {}

    /** What the index loop pushes for one header. */
    method PushEntry(h: Header, pos: nat)
      requires Valid() && Unloaded()
      requires h.typ.C0NN? ==> h.elementSize <= 999
      modifies this
      ensures Valid() && Unloaded()
      ensures Entries() == old(Entries()) + [Entry(Trim(h.name), h.typ, h.size, h.elementSize, pos)]
    {
      hide LoadEntry, Trim, MakeEntries;
      var n := |arrayName|;
      arraySize := arraySize + [h.size];
      arrayType := arrayType + [h.typ];
      var trimmed := Trimr(h.name);
      arrayName := arrayName + [trimmed];
      arrayElementSize := arrayElementSize + [h.elementSize];
      arrayIndex := arrayIndex[trimmed := n];
      streamPos := streamPos + [pos];
      arrayLoaded := arrayLoaded + [false];
    }

    /** One round of the index loop: a header and the skip over its data. */
    method ScanArray(fileH: InStream) returns (r: Result<()>)
      requires Valid() && Unloaded() && |fileH.Rest()| >= 4
      modifies this, fileH
      ensures Valid() && Unloaded()
      ensures
        var goal := PrependEntries(old(Entries()), Index(old(fileH.Rest()), old(fileH.pos)));
        match r
        case Err(e) => goal == Err(e)
        case Ok(_) => goal == PrependEntries(Entries(), Index(fileH.Rest(), fileH.pos)) && fileH.pos > old(fileH.pos)
    {
      hide ReadHeader, SizeOnDiskBinary, Valid, Entries, Unloaded, PrependEntries, Index, Trim, InStream.RestAt;
      StepIndex(fileH.Rest(), fileH.pos, Entries());
      var h :- fileH.ReadBinaryHeader();
      PushEntry(h, fileH.pos);
      if h.size > 0 {
        var sizeOfNextArray :- SizeOnDiskBinary(h.size, h.typ, h.elementSize);
        fileH.SeekOn(sizeOfNextArray);
      }
      r := Ok(());
    }

    /** The index loop of the constructor. */
    method Scan() returns (r: Result<()>)
      requires Valid() && Unloaded() && Entries() == []
      modifies this
      ensures Valid() && Unloaded()
      ensures match Index(bytes, 0)
              case Ok(es) => r == Ok(()) && Entries() == es
              case Err(e) => r == Err(e)
    {
      var fileH := new InStream(bytes);
      assert fileH.Rest() == bytes;
      hide Valid, Entries, Unloaded, PrependEntries, Index, InStream.RestAt;
      PrependNoEntry(Index(bytes, 0));
      while |bytes| - fileH.pos >= 4
        invariant Valid() && Unloaded()
        invariant fresh(fileH) && fileH.content == bytes
        invariant Index(bytes, 0) == PrependEntries(Entries(), Index(fileH.Rest(), fileH.pos))
        decreases |bytes| - fileH.pos
      {
        fileH.ShortRest();
        var _ :- ScanArray(fileH);
      }
      fileH.ShortRest();
      EndOfIndex(fileH.Rest(), fileH.pos, Entries());
      r := Ok(());
    }

    /** The read that loadBinaryArray makes, by type. */
    method ReadArrayData(i: nat) returns (r: Result<seq<Item>>)
      requires Valid() && i < |arrayName| && !arrayType[i].MESS?
      ensures r == LoadEntry(bytes, Entries()[i])
    {
      hide ReadBlocks;
      var t, elementSize := arrayType[i], arrayElementSize[i];
      if t.C0NN? && elementSize <= 0 {
        return Err(BadWidth);
      }
      var fileH := new InStream(bytes);
      fileH.Seek(streamPos[i]);
      LoadFromRest(bytes, Entries()[i], fileH.Rest());
      r := fileH.ReadBinaryArray(arraySize[i], t, if elementSize > 0 then elementSize else 0);
    }

    /** Keeps the elements of an array, and its mark. */
    method Keep(i: nat, items: seq<Item>)
      requires Valid() && i < |arrayName| && LoadEntry(bytes, Entries()[i]) == Ok(items)
      modifies `arrays, `arrayLoaded
      ensures Valid()
      ensures old(Complete()) ==> Complete()
      ensures arrays == if arrayType[i].MESS? then old(arrays) else old(arrays)[i := items]
      ensures arrayLoaded == old(arrayLoaded)[i := true]
    {
      hide LoadEntry, Entries;
      if !arrayType[i].MESS? {
        arrays := arrays[i := items];
      }
      arrayLoaded := arrayLoaded[i := true];
    }

    /** loadBinaryArray. */
    method LoadBinaryArray(i: nat) returns (r: Result<()>)
      requires Valid() && i < |arrayName|
      modifies `arrays, `arrayLoaded
      ensures Valid()
      ensures old(Complete()) ==> Complete()
      ensures match LoadEntry(bytes, Entries()[i])
              case Err(e) => r == Err(e) && arrays == old(arrays) && arrayLoaded == old(arrayLoaded)
              case Ok(items) =>
                && r == Ok(())
                && arrays == (if arrayType[i].MESS? then old(arrays) else old(arrays)[i := items])
                && arrayLoaded == old(arrayLoaded)[i := true]
    {
      assert arrayType[i].MESS? ==> LoadEntry(bytes, Entries()[i]) == Ok([]);
      hide LoadEntry, Valid, Complete, Indexed, Entries, Aligned;
      var items: seq<Item> := [];
      if !arrayType[i].MESS? {
        items :- ReadArrayData(i);
      }
      Keep(i, items);
      r := Ok(());
    }

    /** getImpl: the array at an index as the given type, loaded when it has not been. */
    method GetImpl(i: nat, typ: EclArrType) returns (r: Result<seq<Item>>)
      requires Valid() && i < |arrayName| && !typ.MESS?
      modifies `arrays, `arrayLoaded
      ensures Valid()
      ensures old(Complete()) ==> Complete()
      ensures arrayType[i] != typ ==> r == Err(WrongType) && arrays == old(arrays) && arrayLoaded == old(arrayLoaded)
      ensures arrayType[i] == typ && (!old(arrayLoaded[i]) || i in old(arrays)) ==>
        r == LoadEntry(bytes, Entries()[i])
      ensures arrayType[i] == typ && old(arrayLoaded[i]) && i !in old(arrays) ==> r == Err(OutOfRange)
      ensures old(Complete()) ==> r == if arrayType[i] != typ then Err(WrongType) else LoadEntry(bytes, Entries()[i])
      ensures forall k :: k in old(arrays) ==> k in arrays && arrays[k] == old(arrays)[k]
      ensures r.Ok? ==> arrayLoaded[i]
    {
      hide LoadEntry;
      if arrayType[i] != typ {
        return Err(WrongType);
      }
      if !arrayLoaded[i] {
        var _ :- LoadBinaryArray(i);
      }
      if i in arrays {
        r := Ok(arrays[i]);
      } else {
        r := Err(OutOfRange);
      }
    }

    /** get by name: the last array of that name. */
    method GetByName(name: seq<byte>, typ: EclArrType) returns (r: Result<seq<Item>>)
      requires Valid() && !typ.MESS?
      modifies `arrays, `arrayLoaded
      ensures Valid()
      ensures old(Complete()) ==> Complete()
      ensures name !in arrayName ==> r == Err(NotFound) && arrays == old(arrays) && arrayLoaded == old(arrayLoaded)
      ensures forall i :: IsLast(i, name) ==>
        r == if arrayType[i] != typ then Err(WrongType)
             else if old(arrayLoaded)[i] && i !in old(arrays) then Err(OutOfRange)
             else LoadEntry(bytes, Entries()[i])
    {
      LastIsIndexed(name);
      hide LoadEntry, Valid, Complete, Entries, IsLast;
      if name !in arrayIndex {
        return Err(NotFound);
      }
      r := GetImpl(arrayIndex[name], typ);
    }

    ghost predicate IsLast(i: int, name: seq<byte>)
      reads `arrayName
    {
      && 0 <= i < |arrayName| && arrayName[i] == name
      && forall j :: i < j < |arrayName| ==> arrayName[j] != name
    }

    lemma {:induction false} LastIsIndexed(name: seq<byte>)
      requires Valid()
      ensures name in arrayName <==> name in arrayIndex
      ensures name in arrayIndex ==> arrayIndex[name] < |arrayName|
      ensures name in arrayIndex ==> forall i :: IsLast(i, name) ==> i == arrayIndex[name]
    {
      hide LoadEntry, Entries;
    }

    /** loadData(name): every array of that name, in file order. */
    method LoadData(name: seq<byte>) returns (r: Result<()>)
      requires Valid()
      modifies `arrays, `arrayLoaded
      ensures Valid()
      ensures old(Complete()) ==> Complete()
      ensures r == LoadNamed(bytes, Entries(), name)
      ensures r.Ok? ==> forall i :: 0 <= i < |arrayName| && arrayName[i] == name ==> arrayLoaded[i]
      ensures forall i :: 0 <= i < |arrayName| && arrayName[i] != name ==> arrayLoaded[i] == old(arrayLoaded[i])
      ensures forall k :: k in old(arrays) ==> k in arrays
    {
      hide LoadEntry, Valid, Complete, Entries;
      assert Entries()[0..] == Entries();
      for i := 0 to |arrayName|
        invariant Valid() && (old(Complete()) ==> Complete())
        invariant LoadNamed(bytes, Entries(), name) == LoadNamed(bytes, Entries()[i..], name)
        invariant forall k :: 0 <= k < i && arrayName[k] == name ==> arrayLoaded[k]
        invariant forall k :: 0 <= k < |arrayName| && arrayName[k] != name ==> arrayLoaded[k] == old(arrayLoaded[k])
        invariant forall k :: k in old(arrays) ==> k in arrays
      {
        assert Entries()[i..][1..] == Entries()[i + 1..];
        if arrayName[i] == name {
          var _ :- LoadBinaryArray(i);
        }
      }
      r := Ok(());
    }

    /** clearData: the arrays go, the marks stay. */
    method ClearData()
      requires Valid()
      modifies `arrays
      ensures Valid() && arrays == map[]
    {
      arrays := map[];
    }

    /** An array that is got, cleared and got again is not there any more. */
    method GetClearGet(i: nat, typ: EclArrType) returns (r: Result<seq<Item>>)
      requires Valid() && Complete() && i < |arrayName| && arrayType[i] == typ && !typ.MESS?
      requires LoadEntry(bytes, Entries()[i]).Ok?
      modifies `arrays, `arrayLoaded
      ensures Valid() && r == Err(OutOfRange)
    {
      hide LoadEntry;
      var _ := GetImpl(i, typ);
      ClearData();
      r := GetImpl(i, typ);
    }

    method HasKey(name: seq<byte>) returns (found: bool)
      requires Valid()
      ensures found <==> name in arrayName
    {
      found := name in arrayIndex;
    }

    /** seekPosition: 24 bytes before the data of the array. Past the last one it is what
        tellg gave once the stream had failed at the end of the file. */
    method SeekPosition(i: nat) returns (p: int)
      requires Valid()
      ensures p == if i >= |arrayName| then -1
                   else if Entries()[i].pos <= HEADER_SIZE then 0
                   else Entries()[i].pos - HEADER_SIZE
    {
      if i >= |arrayName| {
        return -1;
      }
      var datapos := streamPos[i];
      p := if datapos <= HEADER_SIZE then 0 else datapos - HEADER_SIZE;
    }
  }

  lemma LoadFromRest(f: seq<byte>, e: Entry, rest: seq<byte>)
    requires rest == if e.pos <= |f| then f[e.pos..] else []
    requires !e.typ.MESS? && (e.typ.C0NN? ==> 0 < e.elementSize <= 999)
    ensures
      var width: nat := if e.elementSize > 0 then e.elementSize else 0;
      && WidthOk(e.typ, width) && ElementBytes(e.typ, width) > 0
      && LoadEntry(f, e) == match ReadBlocks(rest, e.size, e.typ, width)
                            case Ok(l) => Ok(l.items)
                            case Err(err) => Err(err)
  {}

  ghost function PrependEntries(es: seq<Entry>, more: Result<seq<Entry>>): Result<seq<Entry>> {
    if more.Err? then more else Ok(es + more.value)
  }

  lemma {:induction false} PrependNoEntry(more: Result<seq<Entry>>)
    ensures PrependEntries([], more) == more
  {
    assert more.Ok? ==> [] + more.value == more.value;
  }

  lemma {:induction false} EndOfIndex(s: seq<byte>, pos: nat, es: seq<Entry>)
    requires |s| < 4
    ensures PrependEntries(es, Index(s, pos)) == Ok(es)
  {
    assert es + [] == es;
  }

  // One round of the index loop, in terms of what is still to be indexed.
  lemma {:induction false} StepIndex(s: seq<byte>, pos: nat, es: seq<Entry>)
    requires |s| >= 4
    ensures
      var goal := PrependEntries(es, Index(s, pos));
      match ReadHeader(s)
      case Err(e) => goal == Err(e)
      case Ok(h) =>
        match SkipLength(h)
        case Err(e) => goal == Err(e)
        case Ok(skip) =>
          var after := if h.length + skip <= |s| then s[h.length + skip..] else [];
          var entry := Entry(Trim(h.name), h.typ, h.size, h.elementSize, pos + h.length);
          goal == PrependEntries(es + [entry], Index(after, pos + h.length + skip))
  {
    hide ReadHeader, SkipLength, Trim, PrependEntries;
    var h := ReadHeader(s);
    if h.Err? {
      PrependError(es, h.error);
    } else {
      var skip := SkipLength(h.value);
      if skip.Err? {
        PrependError(es, skip.error);
      } else {
        var after := if h.value.length + skip.value <= |s| then s[h.value.length + skip.value..] else [];
        var entry := Entry(Trim(h.value.name), h.value.typ, h.value.size, h.value.elementSize, pos + h.value.length);
        PrependCons(es, entry, Index(after, pos + h.value.length + skip.value));
      }
    }
  }

  lemma PrependError(es: seq<Entry>, e: Error)
    ensures PrependEntries(es, Err(e)) == Err(e)
  {}

  lemma {:induction false} PrependCons(es: seq<Entry>, entry: Entry, more: Result<seq<Entry>>)
    ensures PrependEntries(es, if more.Err? then more else Ok([entry] + more.value))
         == PrependEntries(es + [entry], more)
  {
    assert more.Ok? ==> es + ([entry] + more.value) == es + [entry] + more.value;
  }

  lemma {:induction false} LastBlocks(s: seq<byte>, rest: int, t: EclArrType, width: nat, arr: seq<Item>)
    requires ElementBytes(t, width) > 0 && rest <= 0
    ensures PrependLoaded(arr, ReadBlocks(s, rest, t, width)) == Ok(Loaded(arr, s))
  {
    assert arr + [] == arr;
  }

  lemma {:induction false} LastItems(s: seq<byte>, t: EclArrType, width: nat, arr: seq<Item>)
    ensures PrependItems(arr, ReadItems(s, 0, t, width)) == Ok(arr)
  {
    assert arr + [] == arr;
  }

  ghost function PrependItems(arr: seq<Item>, more: Result<seq<Item>>): Result<seq<Item>> {
    if more.Err? then more else Ok(arr + more.value)
  }

  ghost function PrependLoaded(arr: seq<Item>, more: Result<Loaded>): Result<Loaded> {
    if more.Err? then more else Ok(Loaded(arr + more.value.items, more.value.rest))
  }

  lemma {:induction false} PrependNothing(items: Result<seq<Item>>, loaded: Result<Loaded>)
    ensures PrependItems([], items) == items
    ensures PrependLoaded([], loaded) == loaded
  {
    assert items.Ok? ==> [] + items.value == items.value;
    assert loaded.Ok? ==> [] + loaded.value.items == loaded.value.items;
  }

  // One round of the loop over elements, in terms of what is still to be read.
  lemma {:induction false} StepItems(s: seq<byte>, n: nat, t: EclArrType, width: nat, arr: seq<Item>)
    requires n > 0
    ensures
      var goal := PrependItems(arr, ReadItems(s, n, t, width));
      match ReadItem(s, t, width)
      case Err(e) => goal == Err(e)
      case Ok(v) =>
        && |s| >= ElementBytes(t, width)
        && goal == PrependItems(arr + [v], ReadItems(s[ElementBytes(t, width)..], n - 1, t, width))
  {
    hide ItemValue, ElementBytes, Times;
    var v := ReadItem(s, t, width);
    if v.Ok? {
      var more := ReadItems(s[ElementBytes(t, width)..], n - 1, t, width);
      if more.Ok? {
        assert arr + ([v.value] + more.value) == arr + [v.value] + more.value;
      }
    }
  }

  // One round of the loop over blocks, in terms of what is still to be read.
  lemma {:induction false} StepBlocks(s: seq<byte>, rest: int, t: EclArrType, width: nat, arr: seq<Item>)
    requires ElementBytes(t, width) > 0 && rest > 0
    ensures
      var goal := PrependLoaded(arr, ReadBlocks(s, rest, t, width));
      match ReadInt(s)
      case Err(e) => goal == Err(e)
      case Ok(head) =>
        var num := TruncDiv(head, ElementBytes(t, width));
        if num > BlockElements(t) || num < 0 then goal == Err(BlockHead)
        else
          match ReadItems(s[4..], num, t, width)
          case Err(e) => goal == Err(e)
          case Ok(items) =>
            if (num < BlockElements(t) && rest - num != 0) || (num == BlockElements(t) && rest - num < 0)
            then goal == Err(BlockCount)
            else
              match ReadInt(s[4..][Times(num, ElementBytes(t, width))..])
              case Err(e) => goal == Err(e)
              case Ok(tail) =>
                if head != tail then goal == Err(BlockTail)
                else goal == PrependLoaded(arr + items,
                               ReadBlocks(s[4..][Times(num, ElementBytes(t, width))..][4..], rest - num, t, width))
  {
    hide ReadItems, ElementBytes, BlockElements, Times, BigEndianValue;
    var head := ReadInt(s);
    if head.Ok? {
      var num := TruncDiv(head.value, ElementBytes(t, width));
      if 0 <= num <= BlockElements(t) {
        var items := ReadItems(s[4..], num, t, width);
        if items.Ok? {
          var after := s[4..][Times(num, ElementBytes(t, width))..];
          if ReadInt(after).Ok? && (num == BlockElements(t) ==> rest >= num) && (num < BlockElements(t) ==> rest == num) {
            var more := ReadBlocks(after[4..], rest - num, t, width);
            if more.Ok? {
              assert arr + (items.value + more.value.items) == arr + items.value + more.value.items;
            }
          }
        }
      }
    }
  }
}
