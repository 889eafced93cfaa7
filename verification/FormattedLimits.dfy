// How far the formatted writer goes: exactly which arrays come back from the file
// that it leaves behind, and inputs for each way in which one does not.

module FormattedLimits {
  import opened Bytes
  import opened Arith
  import opened Text
  import opened EclData
  import opened FormattedText
  import opened FormattedFile
  import opened FormattedOutput
  import EclHeader

  /** The array is indexed and loaded from the file the writer leaves as it was handed
      over: an exception and a line without columns are no such file. */
  ghost predicate FComesBack(a: FArr)
    requires FShaped(a)
  {
    && |a.name| <= 8 && HasColumns(a)
    && FIndex(FImage(a), 0) == Ok([FEntryOf(Chunk(0, a), 0)])
    && FLoad(FImage(a), FEntryOf(Chunk(0, a), 0)) == Ok(Loaded(a))
  }

  // A formatted array comes back exactly if its name has at most eight chars, none of
  // them a quote or a line break, an int can count its elements, and a line of 80 chars
  // has a column for them.
  lemma {:induction false} FComesBackIff(a: FArr)
    requires FShaped(a)
    ensures FComesBack(a) <==>
      && |a.name| <= 8 && NoQuote(a.name) && NoBreak(a.name)
      && Count(a.data) <= INT_MAX && (a.typ.C0NN? ==> a.width <= 77)
  {
    hide FShaped, FImage, FIndex, FLoad, Loaded, FEntryOf, NoQuote, NoBreak;
    if FWritable(a) {
      ImageOfWritable(a);
      AloneIsFormatted(a);
    } else if FComesBack(a) {
      ColumnsThere(a);
      HeaderThere(a);
    }
  }

  lemma {:induction false} AloneIsFormatted(a: FArr)
    requires FWritable(a)
    ensures FIndex(EncodeF(a), 0) == Ok([FEntryOf(Chunk(0, a), 0)])
    ensures FLoad(EncodeF(a), FEntryOf(Chunk(0, a), 0)) == Ok(Loaded(a))
  {
    hide FShaped, EncodeF, FIndex, FLoad, FEntryOf, WithBreaks, Trimmed;
    var cs := [Chunk(0, a)];
    assert cs[1..] == [];
    assert EncodeChunks(cs) == EncodeF(a) by {
      assert Blanks(0) + (EncodeF(a) + []) == EncodeF(a);
    }
    FIndexOfChunks(cs, 0, 0);
    NoBlanks(EncodeF(a));
    LoadChunk(cs, 0);
    assert FEntriesOf(cs[1..], ChunkLength(cs[0])) == [];
    assert FEntriesOf(cs, 0) == [FEntryOf(cs[0], 0)];
  }

  // Without a column there is nothing to cut strings from.
  lemma {:induction false} ColumnsThere(a: FArr)
    requires FShaped(a) && FComesBack(a)
    ensures a.typ.C0NN? ==> a.width <= 77
  {
    ColumnsFit(a.width);
    hide FImage, FIndex, SizeOnDiskFormatted, ReadCharsAt, Tokens;
  }

  // The only entry of the index is what the header says.
  lemma {:induction false} FirstFEntry(f: seq<byte>, e: FEntry)
    requires FIndex(f, 0) == Ok([e])
    ensures ParseHeader(Line(f)).Ok? && ParseHeader(Line(f)).value.num == e.num
  {
    hide ParseHeader, Line, FSkip;
    assert FIndex(f, 0).value[0] == e;
  }

  lemma {:induction false} HeaderThere(a: FArr)
    requires FShaped(a) && FComesBack(a) && (a.typ.C0NN? ==> a.width <= 77)
    ensures NoQuote(a.name) && NoBreak(a.name) && Count(a.data) <= INT_MAX
  {
    hide FShaped, FIndex, FLoad, ParseHeader, Line, HeaderLine, FData, NoQuote, NoBreak, Wrap32, Trim, HasColumns;
    FirstFEntry(FImage(a), FEntryOf(Chunk(0, a), 0));
    HeaderBack(0, a.name, Wrap32(Count(a.data)), a.typ, a.width, FData(a));
    NoneBefore(FImage(a));
  }

  lemma NoneBefore(s: seq<byte>)
    ensures Blanks(0) + s == s
  {}

  // ------------------------------------------------------------------
  // Inputs

  // 2^31 elements are announced as -2^31, and none is written.
  lemma {:induction false} CountWraps(a: FArr)
    requires FShaped(a) && HasColumns(a) && Count(a.data) == TWO31 && |a.name| <= 8
    ensures FData(a) == []
    ensures FImage(a) == HeaderLine(a.name, -TWO31, a.typ, a.width) + "\n"
  {
    hide HeaderLine, AllFitting, StringsFit;
    assert Counted(TWO31) == 0;
    if a.data.Texts? {
      NoFields(LayoutOf(a.typ, a.width), 0);
    }
    assert "\n" + [] == "\n";
  }

  // A string of 78 chars has no column, and an array of none is not read for want of one.
  lemma {:induction false} NoColumn()
    ensures !HasColumns(FArr("A", C0NN, 78, Strings([Blanks(78)])))
    ensures FLoad([], FEntry("A", C0NN, 0, 78, 0)).Err?
  {
  }
}
