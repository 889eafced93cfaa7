# Verified model of the ECLIPSE result files and the JSON library of eWoms

The reservoir simulator eWoms writes its results as ECLIPSE files and reads them back. This project
models the code that does so, and the JSON library that is vendored next to it, and proves what the
separately written pieces promise each other. `dafny verify dfyconfig.toml` checks everything.

## What is modelled

**Unformatted files** (`EclData`, `EclHeader`, `BinaryFormat`, `EclIndex`, `BinaryLayout`, `EclOutput`, `EclFile`,
`WriterLimits`).
A file is a string of bytes; the stream that writes it and the stream that reads it are classes with
their position. Three pieces of code have to agree for every array: the loop that writes blocks, the
loop that reads them, and the closed formula by which the index skips them. The theorems are
`SizeOnDiskIsDataLength` (blocks and formula), `ReadWrittenBlocks` (blocks and reader), `IndexOfWritten` and
`FileRoundTrip` (a whole file). What the writer leaves behind is `EclOutput.Image`, to which its methods are
proved; it consists of those blocks exactly where its byte counter does not overflow, and `ComesBackIff` says
which arrays come back from it. `BinaryLayout` says the same byte by byte and in numbers alone: which header, which
block sizes and which word for every element are in the file when `EclOutput.Write` returns.

**Restart files** (`RestartFile`, `Restart`, `FormattedRestart`). A unified restart file is reopened at a report step: it
is indexed, cut at the first step that is not below, and appended to. `RunKeepsSteps` is about every
run of such sessions: the steps in the file increase, each session keeps the steps below its own byte
for byte, and indexing the file finds exactly the steps that are meant to be there. `FormattedRestart` has the
same theorem for formatted files, up to the blanks that reopening leaves, which are counted.

**Summary files** (`SummaryFile`, `Summary`, `SummaryLod`, `LodFile`, `LodSummary`, `SummaryText`, `SummaryKey`). A
summary vector can be read by a scan of all parameters, by a computed byte offset, or from a LODSMRY file made
earlier. `RandomAccessIsScan` and `SameRows` show that the first two agree. `MakeLodsmryFile` saves what they load,
and `CacheIff` shows that the third gives back those values and the report steps of the index; `SummaryText` and
`TextCacheIff` do so for formatted files.
`ESmry.Get` and `ESmry.LoadAll` keep one value per time step in every loaded vector however calls
to them are interleaved.

**Formatted files** (`FormattedText`, `FormattedLayout`, `FormattedFile`, `FormattedOutput`, `FormattedLimits`,
`FormattedNumbers`).
The same for text in columns, with lines and blocks of different length, quoted strings, and the rewriting of
printf's numbers. `FormattedOutput.FImage` is what the writer leaves behind, and `FComesBackIff` says which
arrays come back from it. `FormattedLayout` has the place of every element, the line it ends and the room of an
array in numbers alone.

**JSON** (`JsonText`, `JsonLayout`, `JsonParse`, `JsonRoundTrip`, `JsonUnicode`, `JsonParser`, `JsonPrinter`,
`JsonMinify`, `JsonList`). The parser, the printer, the minifier and the child list work on buffers and
links in place, as in the C code. They are proved against functions on byte strings, and about those:
parsing undoes printing (`DocumentRoundTrip`), minifying undoes formatting (`MinifyPrinted`), the
two passes over a string never disagree about its room (`UnescapeFits`), and escapes mean what
RFC 8259 and RFC 3629 say (`EscapeMeansScalar`, `EscapeOfDigits`, `Utf8RoundTrip`). `JsonLayout` has the printed text
and the grammar of numbers in literal chars.

**Multisegment wells** (`Segments`, `SegmentFlow`). The order of the segments, its inverse, and the
rates that are added up along it. Sources and rates are tied to the reported rates, phase by phase and with
their sign (`SourcesInReported`, `RatesInReported`, `Conservation`).

**User defined quantities** (`Udq`). The substitution of parentheses and the search for the weakest
operator in an expression. `TypeInKinds` restates the number by the kinds of the tokens.

**Grids** (`Grid`). Cell numbers, active cells, cell corners and pillars.

`Bytes`, `Text` and `Arith` hold what the others share.

## Findings

The code keeps each of these promises on a condition. The conditions are proved as equivalences, for all
inputs.

- An array that is written unformatted comes back exactly if three things hold (`WriterLimits.ComesBackIff`):
  - An `int` can count the bytes of its strings, that is, count times width is below 2^31. Otherwise
    `EclOutput.StringDataIntact` and `WriterLimits.SizeOnDiskIff` fail; of 2^28 strings of eight chars nothing
    is written at all (`WriterLimits.NothingWritten`). Overflow of a signed `int` is undefined in C++: that it
    wraps around is an assumption of the model.
  - Three digits can show the width of its C0NN elements (`EclHeader.TagRoundTrip`). A width of 1234 is
    announced as 123 (`WriterLimits.WideTag`).
  - A double can hold its count, because the count in a pair of X231 headers is summed in one
    (`EclHeader.CountRoundTrip`). The smallest count that is lost is 2^53 + 1 (`WriterLimits.OddCount`).
- `clearData` leaves the marks of loaded arrays. A `get` of an array throws exactly if the array has another
  type, is marked and was cleared, or cannot be read (`EclFile.EclFile.GetImpl`); so getting an array, clearing
  and getting it again throws (`EclFile.EclFile.GetClearGet`).
- `LoadData(list)` leaves one value per time step exactly if no key is listed twice and no listed
  vector was loaded before (`Summary.ESmry.LoadIsGoodIff`). A vector that is named twice in one call gets two
  (`Summary.ESmry.NamedTwice`).
- The scan and random access load the same values of a time step, whatever its parameters are, exactly if no
  key is repeated (`Summary.ESmry.OrdersAgreeIff`). Of a key that stands twice the scan keeps the first value
  and random access the second (`Summary.RepeatedKey`).
- A LODSMRY file passes its own key check exactly if no eight-character piece of a key ends in a blank
  (`SummaryLod.KeysMatchIff`). The key `WOPR:OP 1` has such a piece (`SummaryLod.BlankInKey`).
- A key that a summary node finds differs from the stored one exactly for region pairs whose number is
  below 294912, or is above it and a multiple of 32768 (`SummaryKey.KeysAgreeIff`); 360448 is such a number
  (`SummaryKey.NumberThatDiffers`).
- An array that is written formatted comes back exactly if its name has neither a quote nor a line break, an
  `int` can count its elements, and a line has a column for them (`FormattedLimits.FComesBackIff`):
  - A header comes back from its line exactly if the name has neither a quote nor a line break
    (`FormattedFile.HeaderBack`). The names `A'B` and, with a line break, `A` and `B` do not
    (`FormattedFile.NamesThatFail`).
  - Of 2^31 elements none is written, and the header counts -2^31 (`FormattedLimits.CountWraps`).
  - C0NN elements have a column exactly for widths up to 77 (`FormattedText.ColumnsFit`). From 78 on the source
    divides by zero.
- Cutting a formatted file leaves one blank before the next header (`FormattedFile.TruncateChunks`), which the
  index ignores. Blanks at the end of a file are ignored exactly if there are fewer than four; four are taken for
  a header (`FormattedFile.TrailingIff`).
- cJSON prints into a buffer exactly if it has room for the text and two chars more
  (`JsonPrinter.PrintPreallocated`); `cjson.h` advises five.
- A printed document is parsed back exactly up to a nesting of 1000 (`JsonRoundTrip.DocumentRoundTrip`).
- The segment rates are the sums over the subtrees exactly if every inflow is visited before its outlet
  (`SegmentFlow.RatesRightIff`). The code visits along the inverse of the order it computed;
  `SegmentFlow.ForkLosesInflow` is a well of three segments where that loses an inflow.
- The type number of a defined quantity is the place of its weakest operator exactly if no table lookup
  stands up to it (`Udq.PlaceIff`). A sum behind a lookup is one that is misnumbered (`Udq.LookupNotCounted`).
- Parentheses around a last operand move the weakest operator exactly if the expression has none, starts with a
  minus, and that operator binds tighter than a minus; then the minus is the weakest (`Udq.ParenthesesMove`). They
  do so in `- a * b` (`Udq.ParenthesesMatter`).

## Model

| member | source | states |
|---|---|---|
| Text.Trimr | ewoms/eclio/io/eclutil.cc:161-170 | the text without its trailing blanks and nothing else, in both branches |
| Text.StoiOfToString | ewoms/eclio/io/ecloutput.cc:203-219 | whatever blanks come before and non-digits after, a rendered number reads back as itself |
| EclData.FlipWrites | ewoms/eclio/io/eclutil.cc:36-40 | writing a flipped native word leaves its big-endian bytes |
| EclData.FlipReads | ewoms/eclio/io/eclutil.cc:36-40 | reading a word and flipping it gives the number its big-endian bytes stand for |
| EclData.FlipTwice | ewoms/eclio/io/eclutil.cc:36-40 | flipping twice changes nothing, and a number that is written flipped and read flipped is the number |
| EclData.ItemRoundTrip | ewoms/eclio/io/ecloutput.cc:273-289 | an element of any type is read back from the bytes written for it; strings lose trailing blanks |
| EclHeader.TagRoundTrip | ewoms/eclio/io/eclutil.cc:318-341 | the type tag of a header gives back type and element width if and only if a C0NN width has at most three digits |
| EclHeader.ParsedWidth | ewoms/eclio/io/eclutil.cc:318-341 | no tag announces a width above 999 |
| EclHeader.ReadWrittenRecord | ewoms/eclio/io/ecloutput.cc:159-220 | the 24 bytes of one record give back name, count and tag and leave what follows |
| EclHeader.HeaderRoundTrip | ewoms/eclio/io/eclutil.cc:291-342 | one header or the X231 pair gives back padded name, type, element size, and the count as a double holds it |
| EclHeader.CountRoundTrip | ewoms/eclio/io/eclutil.cc:300-316 | the count of elements itself comes back if and only if a double can hold it |
| EclHeader.DoubleIsExact | ewoms/eclio/io/eclutil.cc:300-316 | rounding to the nearest double keeps a count exactly if the spacing of doubles there divides it |
| EclHeader.NearestIs | ewoms/eclio/io/eclutil.cc:300-316 | a count is rounded to a multiple of the spacing of doubles, by at most half of it, ties to even |
| EclHeader.UlpIs | ewoms/eclio/io/eclutil.cc:300-316 | doubles of 53 + k bits are 2^k apart |
| EclHeader.CombinedIs | ewoms/eclio/io/eclutil.cc:300-316 | the two counts of a pair of X231 headers are added with 2^31 as the weight of the first |
| EclData.TruncDivIs | ewoms/eclio/io/eclutil.cc:425-436 | a quotient of int drops the fraction |
| BinaryFormat.SizeOnDiskIsDataLength | ewoms/eclio/io/eclutil.cc:172-210 | the closed-form size is the length of the blocks of an array, for every count, type and C0NN width |
| BinaryFormat.BlocksLength | ewoms/eclio/io/eclutil.cc:172-210 | full blocks and a rest take their payload and eight bytes each |
| BinaryFormat.ReadOneBlock | ewoms/eclio/io/eclutil.cc:407-463 | one block between its head and tail is read as its elements, and reading goes on behind it |
| BinaryFormat.ReadWrittenBlocks | ewoms/eclio/io/eclutil.cc:407-463 | reading undoes writing at every length and for every type, and stops right behind the array |
| BinaryFormat.ReadNeeds | ewoms/eclio/io/eclutil.cc:407-463 | reading some elements takes at least the room that the closed-form size gives |
| BinaryFormat.CanonicalIff | ewoms/eclio/io/eclutil.cc:161-170 | the elements themselves come back if and only if no string ends in a blank |
| BinaryFormat.CountedBlocksExact | ewoms/eclio/io/ecloutput.cc:318-349 | a byte counter that starts at the size of the data writes its blocks |
| BinaryFormat.CountedBlocksShort | ewoms/eclio/io/ecloutput.cc:304-349 | a byte counter that starts too low leaves data out |
| EclIndex.IndexStep | ewoms/eclio/io/eclfile.cc:63-102 | the index loop steps over one array onto whatever follows it |
| EclIndex.IndexOfWritten | ewoms/eclio/io/eclfile.cc:63-102 | indexing a written file lists exactly its arrays: names, types, counts, widths and positions |
| EclIndex.LoadWritten | ewoms/eclio/io/eclfile.cc:109-140 | loading the array that stands at a position returns its elements |
| EclIndex.FileRoundTrip | ewoms/eclio/io/eclfile.cc:63-140 | array k of the index of a whole file is array k written, at the position of its data, and loading it gives its elements |
| BinaryLayout.ItemLaidOut | ewoms/eclio/io/ecloutput.cc:273-289 | an element in the file: ints and logical values as the big-endian number of four bytes, 0 for false, -1 or 1 for true, floats and doubles from their last byte to their first, strings with blanks |
| BinaryLayout.DataLaidOut | ewoms/eclio/io/ecloutput.cc:252-297 | element k stands behind k elements, the head of its block and the heads and tails of the blocks before; every block is between its sizes |
| BinaryLayout.HeaderLaidOut | ewoms/eclio/io/ecloutput.cc:159-220 | 16, name, count, tag and 16; before it the same with X231 and minus the multiples of 2^31, for counts an int cannot hold |
| BinaryLayout.SizeInNumbers | ewoms/eclio/io/eclutil.cc:172-210 | the size of the data of an array in numbers, type by type |
| BinaryLayout.WideSizeInNumbers | ewoms/eclio/io/eclutil.cc:172-210 | the same for C0NN |
| EclOutput.ImageLaidOut | ewoms/eclio/io/ecloutput.cc:159-349 | what is left behind for an array is its header and its data laid out like that |
| EclOutput.EclOutput.WriteBinaryHeader | ewoms/eclio/io/ecloutput.cc:159-220 | appends one record or the X231 pair; a name above eight chars throws and nothing is written |
| EclOutput.EclOutput.WriteBlock | ewoms/eclio/io/ecloutput.cc:269-294 | the inner loop appends one framed block of the next elements |
| EclOutput.EclOutput.WriteBinaryArray | ewoms/eclio/io/ecloutput.cc:222-296 | the loop over blocks appends exactly the blocks of the whole array |
| EclOutput.EclOutput.WriteBinaryCharArray | ewoms/eclio/io/ecloutput.cc:304-349 | the same for strings, as far as the int counter of bytes goes |
| EclOutput.EclOutput.Write | ewoms/eclio/io/ecloutput.hh:46-77 | header and data of a typed array, laid out byte by byte |
| EclOutput.EclOutput.WriteStrings | ewoms/eclio/io/ecloutput.cc:52-91 | CHAR while all strings have at most eight chars, else C0NN as wide as the longest |
| EclOutput.EclOutput.WriteC0nn | ewoms/eclio/io/ecloutput.cc:93-127 | C0NN of a given width, at least eight; a longer string throws before anything is written, but not for a negative width |
| EclOutput.EclOutput.Message | ewoms/eclio/io/ecloutput.cc:145-152 | a MESS header without data |
| EclOutput.StringDataIntact | ewoms/eclio/io/ecloutput.cc:304-349 | all data of a string array is written if and only if an int can count its bytes |
| EclOutput.ImageOfWritable | ewoms/eclio/io/ecloutput.cc:159-349 | what is left behind for an array that can come back is its image in the file format |
| EclOutput.PendingStep | ewoms/eclio/io/ecloutput.cc:328-348 | one round of the loop over strings moves one block from what is pending to the file |
| WriterLimits.SizeOnDiskIff | ewoms/eclio/io/ecloutput.cc:304-349 | the closed-form size is that of the data that is written if and only if an int can count the bytes of the strings |
| WriterLimits.ComesBackIff | ewoms/eclio/io/eclfile.cc:63-140 | an array that is written, indexed and loaded comes back if and only if an int can count the bytes of its strings, three digits show the width of its elements, and a double holds their number |
| WriterLimits.NothingWritten | ewoms/eclio/io/ecloutput.cc:318-349 | of 2^28 strings of eight chars nothing is written behind the header |
| WriterLimits.WideTag | ewoms/eclio/io/ecloutput.cc:186-193 | elements of 1234 chars are announced as elements of 123 |
| WriterLimits.OddCount | ewoms/eclio/io/eclutil.cc:300-316 | 2^53 + 1 is the smallest count that a pair of X231 headers does not give back |
| EclFile.InStream.ReadBinaryArray | ewoms/eclio/io/eclutil.cc:407-463 | the reader loop returns what the specification of reading says, error by error, and stops behind the array |
| EclFile.InStream.ReadElements | ewoms/eclio/io/eclutil.cc:438-443 | the inner loop reads the next elements and moves by their size |
| EclFile.InStream.ReadBinaryHeader | ewoms/eclio/io/eclutil.cc:262-342 | one or two records, with every inconsistency reported |
| EclFile.EclFile.ScanArray | ewoms/eclio/io/eclfile.cc:63-102 | one round of the index loop: the entries so far and the index of the rest make up the same index |
| EclFile.EclFile.Scan | ewoms/eclio/io/eclfile.cc:41-107 | the constructor fills the lists with the index of the file, or fails where it fails |
| EclFile.EclFile.LoadBinaryArray | ewoms/eclio/io/eclfile.cc:109-140 | stores the elements of one array and its mark, and nothing else |
| EclFile.EclFile.GetImpl | ewoms/eclio/io/eclfile.hh:91-107 | the elements of the array, loaded once; a wrong type, and a marked array that was cleared, throw |
| EclFile.EclFile.GetByName | ewoms/eclio/io/eclfile.cc:538-605 | the last array of that name; a wrong type, and a marked array that was cleared, throw |
| EclFile.EclFile.GetClearGet | ewoms/eclio/io/eclfile.hh:46-53 | getting an array, clearing and getting it again throws |
| EclFile.EclFile.LoadData | ewoms/eclio/io/eclfile.cc:202-246 | loads every array of a name in file order and marks no other |
| EclFile.EclFile.ClearData | ewoms/eclio/io/eclfile.hh:46-53 | drops the data of all arrays |
| EclFile.EclFile.HasKey | ewoms/eclio/io/eclfile.cc:472-476 | found exactly if an array has the name |
| EclFile.EclFile.SeekPosition | ewoms/eclio/io/eclfile.cc:483-536 | 24 bytes before the data of an array, or 0; past the last array, the position of a stream that has failed |
| EclFile.StepIndex | ewoms/eclio/io/eclfile.cc:63-102 | a header, the skip and the index of the rest are the index |
| EclFile.StepBlocks | ewoms/eclio/io/eclutil.cc:416-460 | each check of one block in its order: head, count, elements, tail |
| RestartFile.BelowIsPrefix | ewoms/eclio/io/erst.cc:322-330 | in an increasing file the steps below a number come first |
| RestartFile.MarksOfArrays | ewoms/eclio/io/erst.cc:166-204 | scanning the index of a written file is scanning its arrays |
| RestartFile.ReadMarksOfSteps | ewoms/eclio/io/erst.cc:166-204 | the index of a file of steps has exactly its steps, each where its SEQNUM stands |
| RestartFile.WritePositionOfSteps | ewoms/eclio/io/erst.cc:322-330 | the write position is where the first step not below the given one starts, or the end |
| RestartFile.EntryOfStep | ewoms/eclio/io/eclfile.cc:483-536 | the seek position of a step is the length of the file of the steps before it |
| RestartFile.ReopenSteps | ewoms/eclio/io/outputstream.cc:380-457 | reopening at a step keeps the steps below it byte for byte and nothing else |
| RestartFile.SessionKeepsSteps | ewoms/eclio/io/outputstream.cc:292-315 | a session drops the steps at or above its own, keeps the others and adds itself; steps stay increasing |
| RestartFile.RunKeepsSteps | ewoms/eclio/io/outputstream.cc:292-457 | over every run of sessions the file is that of the steps the run is meant to leave, strictly increasing, and reading it finds exactly them |
| RestartFile.MinAtLeast | ewoms/eclio/io/erst.cc:322-330 | the least report step that is not below a number |
| Restart.ERst.VisitArray | ewoms/eclio/io/erst.cc:172-184 | one array of the index: SEQNUM starts a step, and every step has the grids of the last LGRNAMES array before the next |
| Restart.ERst.InitUnified | ewoms/eclio/io/erst.cc:166-204 | finds the steps of the file, or fails where the specification fails, maps every step to its arrays and keeps its grids |
| Restart.ERst.MapSteps | ewoms/eclio/io/erst.cc:186-197 | every report step is mapped to the arrays from its last SEQNUM up to the next one, or to the last array |
| Restart.ERst.LowerBound | ewoms/eclio/io/erst.cc:322-330 | lower_bound on the map of steps finds the least step not below |
| Restart.ERst.RestartStepWritePosition | ewoms/eclio/io/erst.cc:322-330 | the position of that step, or none |
| Restart.OpenNew | ewoms/eclio/io/outputstream.cc:414-420 | an empty file, whatever was there |
| Restart.OpenExisting | ewoms/eclio/io/outputstream.cc:422-457 | the file cut or filled up to the write position, ready to append |
| Restart.OpenUnified | ewoms/eclio/io/outputstream.cc:380-412 | leaves exactly what reopening is specified to leave; a file without SEQNUM is refused and kept |
| Restart.OpenRestart | ewoms/eclio/io/outputstream.cc:292-315 | the kept steps and the SEQNUM array of the new one |
| Restart.WriteStep | ewoms/eclio/io/outputstream.cc:292-378 | one session in terms of the file before and after it |
| SummaryFile.PlaceSkipIs | ewoms/eclio/io/esmry.cc:932-955 | the three names that belong in a summary file, the skip over each, and that any other is refused |
| SummaryFile.RandomAccessIsScan | ewoms/eclio/io/esmry.cc:712-719 | on every file on which the scan of a time step succeeds, the value at the computed offset is the one the scan finds |
| SummaryFile.ListOfWritten | ewoms/eclio/io/esmry.cc:870-971 | listing a written summary file gives its arrays with the positions of their data |
| SummaryFile.StepsOfRest | ewoms/eclio/io/esmry.cc:420-463 | from any ministep on, the index has every ministep and the last one of each report |
| SummaryFile.SummaryRoundTrip | ewoms/eclio/io/esmry.cc:420-463 | the index of a written file loads the parameters of every ministep in order and knows the last ministep of every report |
| Summary.GetListOfArrays | ewoms/eclio/io/esmry.cc:870-971 | the loop over headers lists what the specification lists, or fails as it does |
| Summary.NextPlace | ewoms/eclio/io/esmry.cc:887-966 | one array and the skip over its data, or the end of the file |
| Summary.IndexSteps | ewoms/eclio/io/esmry.cc:420-463 | the loop over MINISTEP, PARAMS and SEQHDR gives the specified steps or error |
| Summary.KeywPosAt | ewoms/eclio/io/esmry.cc:734-753 | a parameter is given to a vector exactly if it is the first of that key |
| Summary.PushScanAt | ewoms/eclio/io/esmry.cc:755-867 | the scan adds to each vector that is not loaded the value of its first parameter, and nothing to the others |
| Summary.PushRowsAt | ewoms/eclio/io/esmry.cc:616-732 | a vector listed once gets its column, one not listed nothing, one listed again too much |
| Summary.ESmry.ReadElement | ewoms/eclio/io/esmry.cc:712-722 | one value by its computed offset is the parameter of that vector |
| Summary.ESmry.LoadNames | ewoms/eclio/io/esmry.cc:616-732 | every listed vector gets its value of every time step and its mark; an unknown key throws and changes nothing |
| Summary.ESmry.MakeKeywPosVector | ewoms/eclio/io/esmry.cc:734-753 | the vector of each parameter, or -1 |
| Summary.ESmry.ScanStep | ewoms/eclio/io/esmry.cc:793-860 | one time step of the scan: the values of its blocks go to their vectors, and it fails if a check of the block loop does |
| Summary.ESmry.LoadAll | ewoms/eclio/io/esmry.cc:755-867 | succeeds if and only if the blocks of every time step can be read, marks every vector, and keeps one value per time step in each |
| Summary.ESmry.LoadIsGoodIff | ewoms/eclio/io/esmry.cc:616-732 | one value per time step is kept if and only if no key is repeated and none was loaded before |
| Summary.ESmry.ScanIsGood | ewoms/eclio/io/esmry.cc:755-867 | a scan completes the vectors without touching those loaded before |
| Summary.ESmry.SameRows | ewoms/eclio/io/esmry.cc:616-867 | with distinct keys the scan and random access find the same values |
| Summary.ESmry.Get | ewoms/eclio/io/esmry.cc:1206-1223 | returns one value per time step of the vector, loading it once; an unknown key throws |
| Summary.ESmry.NamedTwice | ewoms/eclio/io/esmry.cc:688-722 | a vector that is named twice in one call gets two values per time step |
| Summary.ESmry.OrdersAgreeIff | ewoms/eclio/io/esmry.cc:616-867 | the scan and random access load the same of a time step, whatever its parameters are, if and only if no key is repeated |
| Summary.RepeatedKey | ewoms/eclio/io/esmry.cc:734-753 | of a key that stands twice the scan keeps the first value and random access finds the second |
| SummaryLod.CheckedIff | ewoms/eclio/io/esmry.cc:508-521 | the trimmed pieces of a key make up the key again if and only if none ends in a blank |
| SummaryLod.KeysMatchIff | ewoms/eclio/io/esmry.cc:505-521 | the pieces written for some keys pass the check of those keys if and only if every key is clean |
| SummaryLod.InspectWritten | ewoms/eclio/io/esmry.cc:474-555 | inspecting a LODSMRY file made for some keys accepts it if and only if they are clean, and then has the report steps and the place of the vectors |
| SummaryLod.VectorsLength | ewoms/eclio/io/esmry.cc:583-588 | the vectors take the room that the position formula counts |
| SummaryLod.BlankInKey | ewoms/eclio/io/esmry.cc:505-521 | a key whose eighth char is a blank does not pass the check |
| LodSummary.IndexIncreasing | ewoms/eclio/io/esmry.cc:414-466 | the report steps that an index finds are increasing and below the number of time steps |
| LodSummary.MakeLodsmryFile | ewoms/eclio/io/esmry.cc:973-1053 | loads every vector of a run and writes the key pieces, the report flags and the values that scan and random access find, unless there is such a file |
| LodSummary.CacheIff | ewoms/eclio/io/esmry.cc:474-614 | the file made of a run is accepted if and only if all keys are clean, and then has the report steps of the index and, at the computed positions, every value of every vector |
| LodSummary.RunCacheIff | ewoms/eclio/io/esmry.cc:405-614 | for a written data file: its index, and what the LODSMRY file made of it gives back, are the report steps and the parameters written |
| LodSummary.TextCacheIff | ewoms/eclio/io/esmry.cc:474-614 | the same of a formatted LODSMRY file, whose vectors are texts |
| LodFile.CutKeys | ewoms/eclio/io/esmry.cc:1004-1027 | cuts every key into three pieces of eight chars |
| LodFile.InspectLodsmry | ewoms/eclio/io/esmry.cc:474-555 | the checks in their order and what they keep |
| LodFile.LoadFromLodsmry | ewoms/eclio/io/esmry.cc:568-614 | the vector at its computed position |
| SummaryKey.SearchRegions | ewoms/eclio/io/esmry.cc:1139-1150 | the search finds the specified pair of regions |
| SummaryKey.SearchFinds | ewoms/eclio/io/esmry.cc:1139-1150 | the search undoes R1 + 32768 * (R2 + 10) for R1 from 1 to 32768 and R2 from -1 |
| SummaryKey.UnpackFinds | ewoms/eclio/io/esmry.cc:1180-1184 | the division undoes it exactly for R1 below 32768; which numbers keep the search within an int |
| SummaryKey.RegionsAgreeIff | ewoms/eclio/io/esmry.cc:1139-1184 | search and division give the same pair if and only if the number is 294912, or above it and no multiple of 32768 |
| SummaryKey.PairTextInjective | ewoms/eclio/io/esmry.cc:1152-1152 | different pairs are written differently |
| SummaryKey.MakeKeyString | ewoms/eclio/io/esmry.cc:1116-1171 | the key of each kind of vector, with the throw for a keyword of one letter R |
| SummaryKey.LookupKey | ewoms/eclio/io/summarynode.cc:94-109 | the used parts with colons between them |
| SummaryKey.CategoryIs | ewoms/eclio/io/summarynode.cc:151-174 | the first char of a keyword tells its category, but GPR is of a node |
| SummaryKey.CellTextIs | ewoms/eclio/io/esmry.cc:1105-1114 | the number of the cell i, j, k of a grid is written as i+1, j+1, k+1 |
| SummaryKey.KeysAre | ewoms/eclio/io/esmry.cc:1116-1171 | the keys of cells, connections, wells, groups, segments and aquifers in full, and which are left empty |
| SummaryKey.KeysAgreeIff | ewoms/eclio/io/esmry.cc:1173-1192 | for every vector that is kept, the key of its node is the key it is stored under if and only if it is no region pair or the two decodings agree |
| FormattedText.SizeIsLength | ewoms/eclio/io/eclutil.cc:212-260 | the closed-form size is the length of what the writer loops leave, for every count and any number of columns |
| FormattedLayout.LayoutInNumbers | ewoms/eclio/io/eclutil.cc:212-260 | the width, the place and the size of elements in numbers, type by type, for all counts |
| FormattedLayout.FieldAt | ewoms/eclio/io/ecloutput.cc:551-616 | in any layout a field stands behind the fields and line breaks before it, and its own line break behind it |
| FormattedLayout.TextsLaidOut | ewoms/eclio/io/ecloutput.cc:551-616 | every text is at the right of its column, and lines end where they should |
| FormattedLayout.StringsLaidOut | ewoms/eclio/io/ecloutput.cc:624-665 | every string is behind a blank and between quotes, with blanks up to its width, and lines end where they should |
| FormattedText.TokensOfLines | ewoms/eclio/io/eclutil.cc:533-553 | splitting columns on blanks gives the texts across line and block ends; the last of a line keeps its line break |
| FormattedText.IntsRoundTrip | ewoms/eclio/io/eclutil.cc:555-564 | integers come back from their columns |
| FormattedText.FlagsRoundTrip | ewoms/eclio/io/eclutil.cc:615-631 | logical values come back from their columns |
| FormattedText.CharsOfLines | ewoms/eclio/io/eclutil.cc:566-588 | quoted strings come back by width, whatever they contain, without trailing blanks |
| FormattedText.StringsRoundTrip | ewoms/eclio/io/eclutil.cc:566-588 | for CHAR and for C0NN up to 77 chars |
| FormattedText.ColumnsFit | ewoms/eclio/io/eclutil.cc:212-230 | a C0NN element has a column if and only if it has at most 77 chars |
| FormattedText.CharsAt | ewoms/eclio/io/eclutil.cc:566-588 | reading strings at a place of a text is reading them from what stands there on, as long as there are quotes |
| FormattedFile.HeaderBack | ewoms/eclio/io/eclutil.cc:344-393 | what getline reads of a header, behind any blanks, is parsed if and only if the name has neither a quote nor a line break, and then is that header up to widths of 999 |
| FormattedFile.NamesThatFail | ewoms/eclio/io/eclutil.cc:344-393 | a name with a quote and one with a line break |
| FormattedFile.TypeOfWidth | ewoms/eclio/io/eclutil.cc:379-382 | a C0NN width is read whether or not it is shown with three digits |
| FormattedLimits.FComesBackIff | ewoms/eclio/io/eclfile.cc:63-172 | a formatted array is indexed and loaded as it was written if and only if its name has at most eight chars without quote or line break, an int counts its elements and they have a column |
| FormattedLimits.CountWraps | ewoms/eclio/io/ecloutput.cc:551-616 | of 2^31 elements none is written, and they are announced as -2^31 |
| FormattedFile.FIndexOfChunks | ewoms/eclio/io/eclfile.cc:63-102 | the index lists the arrays of a file, whatever blanks stand before them and up to three at the end |
| FormattedFile.TrailingIff | ewoms/eclio/io/eclutil.cc:83-95 | blanks at the end are harmless if and only if there are fewer than four |
| FormattedFile.TruncateChunks | ewoms/eclio/io/eclfile.cc:483-536 | cutting at an array keeps the arrays before it and one blank more than stood before it |
| FormattedFile.ReopenFormatted | ewoms/eclio/io/outputstream.cc:422-457 | after reopening at an array and writing others, the index lists the old arrays at their places and then the new ones |
| FormattedFile.LoadChunk | ewoms/eclio/io/eclfile.cc:142-172 | loading an array gives its texts or strings |
| FormattedRestart.MarksOfChunks | ewoms/eclio/io/erst.cc:166-204 | scanning the index of a formatted file is scanning its arrays |
| FormattedRestart.ReadMarksOfSteps | ewoms/eclio/io/erst.cc:166-204 | the index of a formatted file of steps has exactly its steps |
| FormattedRestart.WritePositionOfSteps | ewoms/eclio/io/erst.cc:322-330 | a formatted file is reopened one char into the header of the first step that is not below |
| FormattedRestart.ReopenSteps | ewoms/eclio/io/outputstream.cc:380-457 | reopening keeps the steps below, and the blanks before the first one dropped and one more |
| FormattedRestart.SessionKeepsSteps | ewoms/eclio/io/outputstream.cc:292-315 | a session keeps the steps below its own, drops the others and adds itself; steps stay increasing |
| FormattedRestart.RunKeepsSteps | ewoms/eclio/io/outputstream.cc:292-457 | over every run of sessions the formatted file is that of the steps the run is meant to leave, behind counted blanks, and reading it finds exactly them |
| FormattedOutput.ImageLaidOut | ewoms/eclio/io/ecloutput.cc:387-665 | the data of an array stands laid out like that behind the 31 chars of its header |
| FormattedOutput.FormattedOutput.Write | ewoms/eclio/io/ecloutput.hh:46-78 | header and columns of a typed array, laid out char by char; a name above eight chars throws and nothing is written |
| FormattedOutput.FormattedOutput.WriteStrings | ewoms/eclio/io/ecloutput.cc:51-91 | CHAR while all strings have at most eight chars, else C0NN as wide as the longest |
| FormattedOutput.FormattedOutput.WriteC0nn | ewoms/eclio/io/ecloutput.cc:93-127 | C0NN of a given width, at least eight; a longer string throws before anything is written |
| FormattedOutput.FormattedOutput.WriteFormattedArray | ewoms/eclio/io/ecloutput.cc:551-622 | the loop with a counter that starts over at each block leaves the columns and their line breaks |
| FormattedOutput.FormattedOutput.WriteFormattedCharArray | ewoms/eclio/io/ecloutput.cc:624-665 | the nested loops over blocks and columns leave the same lines |
| FormattedOutput.ReadFormattedArray | ewoms/eclio/io/eclutil.cc:533-553 | the loop over blanks finds the specified tokens |
| FormattedOutput.ReadFormattedCharArray | ewoms/eclio/io/eclutil.cc:566-588 | the loop over quotes finds the specified strings, starting over at the front where there is no quote left |
| FormattedNumbers.RealKeepsValue | ewoms/eclio/io/ecloutput.cc:426-459 | a float is written as the decimal number printf gave |
| FormattedNumbers.DoubKeepsValue | ewoms/eclio/io/eclutil.cc:633-656 | a double is written and read as the decimal number printf gave, for both signs and every exponent |
| FormattedNumbers.MarkRestored | ewoms/eclio/io/eclutil.cc:639-650 | the reader puts back the mark of the exponent, whether a D or nothing was written |
| FormattedNumbers.NothingRestored | ewoms/eclio/io/eclutil.cc:637-652 | a text with a mark, or without a sign behind its first char, is left as it is |
| FormattedNumbers.DenotedScientific | ewoms/eclio/io/eclutil.cc:633-656 | the number of a text with an exponent behind a mark of either case, or behind none |
| FormattedNumbers.MarkIsNeeded | ewoms/eclio/io/ecloutput.cc:485-525 | without the mark the number would be the same only for exponent zero |
| FormattedNumbers.TextsFit | ewoms/eclio/io/ecloutput.cc:551-622 | the texts leave a blank in their columns |
| SummaryText.ElementPos | ewoms/eclio/io/esmry.cc:645-697 | the place of a value in the columns, from blocks of four thousand and lines of four |
| SummaryText.FieldAt | ewoms/eclio/io/esmry.cc:688-697 | the field at that place is the one of the parameter, across line and block ends |
| SummaryText.RandomAccessIsScan | ewoms/eclio/io/esmry.cc:688-697 | the number read at that place is the number the scan of the text finds, whatever follows |
| SummaryText.StodStops | ewoms/eclio/io/esmry.cc:808-819 | the line break that the scan leaves behind a number is not read |
| SummaryText.InspectWrittenText | ewoms/eclio/io/esmry.cc:474-555 | inspecting a formatted LODSMRY file accepts it if and only if its keys are clean; the offset it keeps is one char into the first header |
| SummaryText.InspectNeeds | ewoms/eclio/io/esmry.cc:485-529 | what is accepted starts with KEYCHECK of three pieces for each key and goes on with RSTEP |
| SummaryText.ChunkAt | ewoms/eclio/io/eclutil.cc:344-393 | the header and the data of an array are found at its start and also one char behind |
| SummaryText.LoadWrittenText | ewoms/eclio/io/esmry.cc:568-614 | the computed position of every vector is one char into its header, and loading it gives its texts |
| JsonRoundTrip.UnescapeEscaped | ewoms/eclio/json/cjson.c:697-945 | unescaping undoes escaping for every string without NUL |
| JsonRoundTrip.ParseQuoted | ewoms/eclio/json/cjson.c:697-823 | a quoted string is parsed as the string and nothing behind it is read |
| JsonRoundTrip.ParseRendered | ewoms/eclio/json/cjson.c:1211-1716 | at every depth, the printed text of a tree is parsed as the tree, exactly to its end, unless it nests too deep |
| JsonRoundTrip.DocumentRoundTrip | ewoms/eclio/json/cjson.c:999-1077 | parsing a printed document, formatted or not, gives the tree if and only if it nests at most 1000 deep |
| JsonRoundTrip.FormatsAgree | ewoms/eclio/json/cjson.c:1151-1159 | formatted and unformatted text stand for the same tree |
| JsonUnicode.Utf8RoundTrip | ewoms/eclio/json/cjson.c:639-686 | every scalar value is written in its one well-formed UTF-8 form |
| JsonUnicode.OnlyUtf8 | ewoms/eclio/json/cjson.c:639-686 | and no other bytes are well-formed: what decodes is the form of a scalar value |
| JsonUnicode.EscapeMeansScalar | ewoms/eclio/json/cjson.c:577-694 | the escape of a scalar value, single or a pair of surrogates, is unescaped to its UTF-8 form |
| JsonUnicode.HexOfShown | ewoms/eclio/json/cjson.c:540-574 | four digits of either case number 4096, 256, 16 and 1 |
| JsonUnicode.NoDigit | ewoms/eclio/json/cjson.c:540-574 | a char that is no digit makes the number zero |
| JsonUnicode.EscapeOfDigits | ewoms/eclio/json/cjson.c:577-694 | an escape with digits of either case is unescaped to the UTF-8 form of what they number |
| JsonUnicode.PairOfDigits | ewoms/eclio/json/cjson.c:577-694 | and a pair of surrogates to that of the char it stands for |
| JsonUnicode.LetterEscapes | ewoms/eclio/json/cjson.c:758-799 | the escapes of one letter, and that there are no others |
| JsonUnicode.BomIs | ewoms/eclio/json/cjson.c:983-997 | a byte order mark is skipped at the start of a text that goes on, and nothing else |
| JsonUnicode.LiteralIsScalar | ewoms/eclio/json/cjson.c:577-694 | whatever an escape stands for is a scalar value; surrogates that are not a pair are refused |
| JsonUnicode.StepRoom | ewoms/eclio/json/cjson.c:745-798 | one round of the second pass writes no more than it takes, less the backslashes counted there |
| JsonUnicode.UnescapeFits | ewoms/eclio/json/cjson.c:697-823 | the unescaped text fits in what the first pass reserved, also when bad digits swallow backslashes |
| JsonParser.ParseBuffer.SkipWhitespace | ewoms/eclio/json/cjson.c:962-980 | skips what the specification skips |
| JsonParser.ParseBuffer.ParseNumber | ewoms/eclio/json/cjson.c:266-340 | at most 63 chars are copied and as many are taken as strtod converts |
| JsonParser.ParseBuffer.ParseHex4 | ewoms/eclio/json/cjson.c:540-574 | the value of four digits, or 0 |
| JsonParser.ParseBuffer.EncodeUtf8 | ewoms/eclio/json/cjson.c:639-686 | the bytes, last first, are the UTF-8 form and stay in their room |
| JsonParser.ParseBuffer.Utf16LiteralToUtf8 | ewoms/eclio/json/cjson.c:577-694 | one escape or a pair, or a refusal |
| JsonParser.ParseBuffer.FindEnd | ewoms/eclio/json/cjson.c:710-735 | where the string ends and how many backslashes start an escape |
| JsonParser.ParseBuffer.UnescapeBody | ewoms/eclio/json/cjson.c:743-801 | the second pass never leaves the output and gives the unescaped text or refuses it |
| JsonParser.ParseBuffer.ParseString | ewoms/eclio/json/cjson.c:697-823 | the string, cut at a NUL, and the input behind its quote |
| JsonParser.ParseBuffer.ParseValue | ewoms/eclio/json/cjson.c:1211-1263 | the value of each kind and the input behind it |
| JsonParser.ParseBuffer.ParseArray | ewoms/eclio/json/cjson.c:1340-1431 | the array, with the depth as before |
| JsonParser.ParseBuffer.ParseObject | ewoms/eclio/json/cjson.c:1496-1602 | the object, with the depth as before |
| JsonParser.ParseWithOpts | ewoms/eclio/json/cjson.c:999-1077 | the document that the specification gives, with or without the demand that nothing follows |
| JsonLayout.QuoteIs | ewoms/eclio/json/cjson.c:826-945 | a string is printed between quotes, each char as itself or as the escape it must have |
| JsonLayout.RenderIs | ewoms/eclio/json/cjson.c:1434-1716 | the lines of a formatted object start with as many tabs as it is deep, a key, a colon and a tab; arrays and unformatted objects have no lines |
| JsonLayout.StrtodTakes | ewoms/eclio/json/cjson.c:266-340 | of a sign, digits around a point and an exponent all is taken, and nothing that cannot go on with them |
| JsonLayout.NoNumber | ewoms/eclio/json/cjson.c:266-340 | without a digit there is no number |
| JsonLayout.NumberCharIs | ewoms/eclio/json/cjson.c:266-322 | which chars are copied for a number |
| JsonPrinter.RenderNulFree | ewoms/eclio/json/cjson.c:1266-1716 | printed text has no NUL |
| JsonPrinter.PrintBuffer.Ensure | ewoms/eclio/json/cjson.c:373-458 | room for the chars asked for and one, by growing if that is allowed, with the text kept |
| JsonPrinter.PrintBuffer.UpdateOffset | ewoms/eclio/json/cjson.c:461-471 | the offset moves to the end of the text |
| JsonPrinter.PrintBuffer.CountEscapes | ewoms/eclio/json/cjson.c:853-877 | the first pass counts what escaping adds |
| JsonPrinter.PrintBuffer.EscapeInto | ewoms/eclio/json/cjson.c:896-942 | the second pass writes the escaped text, of the counted length |
| JsonPrinter.PrintBuffer.PrintStringPtr | ewoms/eclio/json/cjson.c:826-945 | the quoted string, if it fits |
| JsonPrinter.PrintBuffer.PrintValue | ewoms/eclio/json/cjson.c:1266-1337 | succeeds exactly if the text and two chars fit, and then leaves the text and a terminator |
| JsonPrinter.PrintBuffer.PrintArray | ewoms/eclio/json/cjson.c:1434-1493 | the same for an array |
| JsonPrinter.PrintBuffer.PrintObject | ewoms/eclio/json/cjson.c:1605-1716 | the same for an object with its lines and tabs |
| JsonPrinter.Print | ewoms/eclio/json/cjson.c:1086-1159 | returns the text of the tree and a terminator if and only if it fits in INT_MAX |
| JsonPrinter.PrintPreallocated | ewoms/eclio/json/cjson.c:1191-1208 | fills the buffer of the caller if and only if the text and two chars fit |
| JsonMinify.MinifyPrinted | ewoms/eclio/json/cjson.c:2631-2699 | minifying the printed text of any tree, formatted or not, gives its unformatted text, whatever its strings contain |
| JsonMinify.SpaceIs | ewoms/eclio/json/cjson.c:2642-2660 | which chars are dropped outside of strings |
| JsonMinify.MinifyInPlace | ewoms/eclio/json/cjson.c:2631-2699 | two cursors on one buffer, the writing one never ahead; behind the new terminator nothing changes |
| JsonMinify.Round | ewoms/eclio/json/cjson.c:2640-2695 | one round keeps what is written and what is still to be minified |
| JsonMinify.CopyString | ewoms/eclio/json/cjson.c:2676-2689 | a string is copied whole with its escapes |
| JsonMinify.SkipComment | ewoms/eclio/json/cjson.c:2667-2675 | stops behind the comment |
| JsonList.GetArraySize | ewoms/eclio/json/cjson.c:1719-1739 | the number of children |
| JsonList.GetArrayItem | ewoms/eclio/json/cjson.c:1742-1769 | the child at an index, or null |
| JsonList.AddItemToArray | ewoms/eclio/json/cjson.c:1847-1874 | the list with the item at its end |
| JsonList.InsertItemInArray | ewoms/eclio/json/cjson.c:2143-2170 | the list with the item at a place; past the end it is appended, at a negative one nothing is done |
| JsonList.DetachItemViaPointer | ewoms/eclio/json/cjson.c:2073-2101 | the list without the item, which points nowhere |
| JsonList.DetachItemFromArray | ewoms/eclio/json/cjson.c:2103-2111 | the item at an index is detached, if there is one |
| JsonList.ReplaceItemViaPointer | ewoms/eclio/json/cjson.c:2172-2205 | the list with one item for another |
| JsonList.InsertAndDetach | ewoms/eclio/json/cjson.c:2073-2170 | detaching where an item was inserted restores the list |
| Segments.InflowSegmentsIndex | ewoms/eclio/output/aggregatemswdata.cc:77-88 | the segments that flow into one, in the order of their indices |
| Segments.SegmentOrder | ewoms/eclio/output/aggregatemswdata.cc:127-182 | the walk along the branch with recursion into side branches ends and gives the specified order |
| Segments.BranchStep | ewoms/eclio/output/aggregatemswdata.cc:136-176 | one round: the side branches are listed, and the next segment of the branch is found or the toe reached |
| Segments.OrderCovers | ewoms/eclio/output/aggregatemswdata.cc:127-182 | the order lists exactly the subtree of the segment |
| Segments.OrderSorted | ewoms/eclio/output/aggregatemswdata.cc:127-182 | each segment once, behind all its inflows |
| SegmentFlow.WellOrder | ewoms/eclio/output/aggregatemswdata.cc:180-182 | the order of a well is a permutation in which every inflow comes first |
| SegmentFlow.SegmentIndFromOrderedSegmentInd | ewoms/eclio/output/aggregatemswdata.cc:120-126 | the inverse of the order |
| SegmentFlow.SegReorder | ewoms/eclio/output/aggregatemswdata.cc:463-469 | where each segment stands in the order, from one |
| SegmentFlow.GetSegmentSetSSTerms | ewoms/eclio/output/aggregatemswdata.cc:184-233 | every segment gets the terms of its open connections that have rates |
| SegmentFlow.SourcesAddUp | ewoms/eclio/output/aggregatemswdata.cc:184-233 | no rate is lost or counted twice on the way to the segments |
| SegmentFlow.GetSegmentSetFlowRates | ewoms/eclio/output/aggregatemswdata.cc:235-274 | the rates of a walk along the inverse of the order |
| SegmentFlow.WalkRight | ewoms/eclio/output/aggregatemswdata.cc:252-268 | along an inflow-first visit every segment seen has the sum of its subtree |
| SegmentFlow.SubtreeIsSum | ewoms/eclio/output/aggregatemswdata.cc:252-268 | the subtree sum is the sum of the sources of the segments below |
| SegmentFlow.LateInflow | ewoms/eclio/output/aggregatemswdata.cc:252-268 | an inflow visited after its outlet is missing there |
| SegmentFlow.RatesRightIff | ewoms/eclio/output/aggregatemswdata.cc:252-268 | the rates are subtree sums for all sources if and only if every inflow is visited first |
| SegmentFlow.WellRatesRight | ewoms/eclio/output/aggregatemswdata.cc:235-274 | for a well: if and only if the inverse of its order is inflow-first, as when the order is its own inverse |
| SegmentFlow.SourcesInReported | ewoms/eclio/output/aggregatemswdata.cc:196-232 | every source is minus the factor of its phase times what is reported in its segment, a missing phase as zero, and so are all together |
| SegmentFlow.RatesInReported | ewoms/eclio/output/aggregatemswdata.cc:235-274 | along an inflow-first visit every rate is minus the factor of its phase times what is reported in the segments below |
| SegmentFlow.Conservation | ewoms/eclio/output/aggregatemswdata.cc:235-274 | along an inflow-first visit the rate of the top segment is minus the factor of its phase times all that is reported of open, matched connections |
| SegmentFlow.ForkLosesInflow | ewoms/eclio/output/aggregatemswdata.cc:250-254 | a well whose inverse order is not inflow-first |
| Udq.NoOperators | ewoms/eclio/output/aggregateudqdata.cc:163-171 | the number of operators, functions and parentheses |
| Udq.FindGroups | ewoms/eclio/output/aggregateudqdata.cc:207-223 | where the groups at the highest level start and end |
| Udq.HighLevel | ewoms/eclio/output/aggregateudqdata.cc:228-274 | each group is replaced by its number and kept under it, and nothing else changes |
| Udq.GroupAt | ewoms/eclio/output/aggregateudqdata.cc:207-223 | starts and ends pair up, and the list is deeper exactly in between |
| Udq.WrappedIff | ewoms/eclio/output/aggregateudqdata.cc:295-312 | the parentheses around the whole list are the first group, if it ends last |
| Udq.LeadIff | ewoms/eclio/output/aggregateudqdata.cc:277-294 | which leading minus is taken for a change of sign |
| Udq.SubstituteOuterParenthesis | ewoms/eclio/output/aggregateudqdata.cc:198-321 | strips every pair around the whole list, and then substitutes; the recursion ends |
| Udq.SubstitutionUndone | ewoms/eclio/output/aggregateudqdata.cc:198-321 | putting groups, sign and stripped parentheses back gives the expression |
| Udq.LowestPrecedence | ewoms/eclio/output/aggregateudqdata.cc:341-354 | the last of the operators with the lowest precedence |
| Udq.CountUpTo | ewoms/eclio/output/aggregateudqdata.cc:374-398 | what is counted up to an entry is what its expansion contains |
| Udq.DefineType | ewoms/eclio/output/aggregateudqdata.cc:327-401 | the type as a statement about places in the expression |
| Udq.ChosenIsWeakest | ewoms/eclio/output/aggregateudqdata.cc:170-184 | the chosen operator is the last union operator if there is one, else the last sum or difference, else the last product or quotient, else the last power, else the last comparison, else the last function or lookup |
| Udq.TypeInKinds | ewoms/eclio/output/aggregateudqdata.cc:328-401 | the type is minus the number of tokens, up to that operator, that are neither operands nor lookups |
| Udq.PowerTimes | ewoms/eclio/output/aggregateudqdata.cc:328-401 | a power times a factor has the type of the product |
| Udq.TypeUnique | ewoms/eclio/output/aggregateudqdata.cc:327-401 | that statement determines the type |
| Udq.PlaceIff | ewoms/eclio/output/aggregateudqdata.cc:355-399 | the type is minus the place of the chosen operator if and only if no table lookup stands up to it |
| Udq.LookupNotCounted | ewoms/eclio/output/aggregateudqdata.cc:355-399 | a sum behind a table lookup is numbered three where it stands fourth |
| Udq.ParenthesesMove | ewoms/eclio/output/aggregateudqdata.cc:277-294 | parentheses around a last operand move the chosen operator if and only if the expression has none, starts with a minus, and that operator binds tighter than a minus, which is then chosen |
| Udq.ParenthesesMatter | ewoms/eclio/output/aggregateudqdata.cc:277-294 | they do in a minus before a product |
| Grid.IjkOfGlobal | ewoms/eclio/io/egrid.cc:233-287 | cell to number and back |
| Grid.GlobalOfIjk | ewoms/eclio/io/egrid.cc:272-287 | number to cell and back |
| Grid.CornerOfZcorn | ewoms/eclio/io/egrid.cc:306-313 | cell and corner to ZCORN is one-to-one, within 8 * nx * ny * nz places |
| Grid.ZcornOfCorner | ewoms/eclio/io/egrid.cc:306-313 | and onto all of them |
| Grid.PillarsFit | ewoms/eclio/io/egrid.cc:300-304 | a pillar is within COORD, and corners share one exactly if they are at the same point of the map |
| Grid.TablesUnique | ewoms/eclio/io/egrid.cc:115-133 | the tables of active cells are determined by ACTNUM |
| Grid.EGrid.constructor | ewoms/eclio/io/egrid.cc:115-133 | the tables are increasing and undo each other; without ACTNUM the number of active cells is left as it was |
| Grid.EGrid.GlobalIndex | ewoms/eclio/io/egrid.cc:233-240 | the number of a cell of the grid, or a throw |
| Grid.EGrid.ActiveIndex | ewoms/eclio/io/egrid.cc:242-251 | -1 exactly for inactive cells, else the place in the table of active cells |
| Grid.EGrid.IjkFromActiveIndex | ewoms/eclio/io/egrid.cc:253-270 | the cell of an active index, whose active index it is |
| Grid.EGrid.IjkFromGlobalIndex | ewoms/eclio/io/egrid.cc:272-287 | the cell of a number of the grid, or a throw |
| Grid.EGrid.CornerPlaces | ewoms/eclio/io/egrid.cc:306-313 | the eight places in ZCORN are those of the eight corners |
| Grid.EGrid.PillarPlaces | ewoms/eclio/io/egrid.cc:300-304 | the four places in COORD are those of the four pillars |

## Left out

- IEEE arithmetic, printf and strtod: a REAL or DOUB element is four or eight opaque bytes in a binary
  file, and in text it is the decimal number that printf gave. Segment rates are exact numbers, and the
  conversion of units is multiplication by a factor.
- File handles, paths, time stamps and directory scans: a file is its bytes and a position. A file is
  taken not to change between being indexed and being loaded.
- EclFile.InStream.ReadBinaryArray: does not model that a read past the end, on which the source does not throw,
  leaves its buffer as it was; such a read is the error ShortRead.
- EclFile.InStream.ReadElements: does not model that, for the same reason.
- EclFile.InStream.ReadBinaryHeader: does not model that, for the same reason.
- EclOutput.EclOutput.WriteC0nn: does not model a negative width with a string above eight chars, where the
  source throws in the middle of a block.
- FormattedOutput.FormattedOutput.WriteC0nn: does not model that either, nor elements without a column, where the
  source divides by zero.
- FormattedOutput.FormattedOutput.WriteStrings: does not model elements without a column.
- The preloading of all arrays of a file.
- One map holds the loaded arrays of all types, where the source has one per type.
- A C0NN tag that announces a width below one, where the source divides by zero, is the error BadWidth.
- The overloads for PaddedOutputString, the ix form of formatted reals, the listing functions of ERst
  (getArrayIndex, occurrence_count, listOfRstArrays, LGR names): they would add easy members.
- Separate (not unified) restart files, and step numbers taken from file names: a file without SEQNUM is
  refused.
- Formatted files in the classes EclFile and ERst: FormattedFile and FormattedRestart have what is read of them
  on values.
- Several data files of a summary, and base runs. Of the formatted branch of ESmry, SummaryText has what is read
  of one time step and the LODSMRY file, on values; the listing of a formatted data file is left out. A scan that goes past the
  parameters of the summary, which the source does not guard against, is the error OutOfRange.
- The order of the keys of a summary, which the source takes from std::set: any order without repetition is
  allowed. The rest of the SMSPEC file.
- A LODSMRY file with more time steps than an int holds, and one without vectors, where the source divides
  by zero.
- Hooks, raw items, comments as a parser option, the locale, allocation failure, NaN and infinite numbers,
  the position of an error, and cJSON_PrintBuffered.
- The links between the items a parsed value consists of: values of the parser are trees, and JsonList is
  about the links of any list of children. Deleting items.
- JsonMinify.MinifyInPlace: does not model text that ends inside a string or a comment, because there the
  source reads on behind the terminator.
- JsonMinify.Round: does not model that text either.
- JsonMinify.CopyString: does not model a string that is not closed, for the same reason.
- JsonMinify.SkipComment: does not model a comment that is not closed, for the same reason.
- Overflow of 64-bit positions, and of 32-bit products of cell indices. SummaryKey.UnpackFinds says for
  which numbers the search for a pair of regions stays within an int.
- Udq: the making of tokens from a deck. The union operators, the comparisons and the functions of one kind
  are one token kind each, because the code treats them alike. Token lists are those the expression parser
  takes: balanced, without empty parentheses, and no two operands side by side.
- Udq.PlaceIff: is about an expression with an operator; without one the type is 1, or the place of the sign.
- EGrid: which arrays of the file belong to a grid, non-neighbour connections, host cells, and the
  coordinates of corners from pillars and depths.
- SummaryKey.MakeKeyString: does not model keywords that are no text, or grids whose I or J size is zero,
  where the source divides by zero.
- Undefined overflow of a signed `int` in the byte counter of string arrays is modelled as wrap-around.
- Masks, shifts and bit fields are division and remainder.
- The three arrays of a phase each (oil, water, gas) are one array of triples.
- RSM text, RFT and INIT lookups, the aggregation of groups, wells, connections and actions, keyword
  generation, logging and command line tools.
