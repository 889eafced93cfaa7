// ESmry on one unformatted run: the vectors it loads by a scan of all parameters
// and by random access to single ones.

module Summary {
  import opened Bytes
  import opened Arith
  import opened Text
  import opened EclData
  import opened BinaryFormat
  import opened SummaryFile
  import Reader = EclFile

  type Key = seq<byte>

  // ------------------------------------------------------------------
  // Keys and positions

  /** The first place of a key in a list, or -1. */
  function FirstPos(keys: seq<Key>, key: Key): (i: int)
    ensures -1 <= i < |keys|
    ensures i >= 0 ==> keys[i] == key && key !in keys[..i]
    ensures i < 0 <==> key !in keys
  {
    if keys == [] then -1
    else if keys[0] == key then 0
    else
      var i := FirstPos(keys[1..], key);
      assert keys == [keys[0]] + keys[1..];
      if i < 0 then -1
      else
        assert keys[..i + 1] == [keys[0]] + keys[1..][..i];
        i + 1
  }

  /** The last place of a key in a list, or -1. */
  function LastPos(keys: seq<Key>, key: Key): (i: int)
    ensures -1 <= i < |keys|
    ensures i >= 0 ==> keys[i] == key
    ensures i < 0 <==> key !in keys
  {
    if keys == [] then -1
    else if keys[|keys| - 1] == key then |keys| - 1
    else
      assert keys == keys[..|keys| - 1] + [keys[|keys| - 1]];
      LastPos(keys[..|keys| - 1], key)
  }

  predicate NoRepeats<T(==)>(s: seq<T>) {
    forall a, b :: 0 <= a < b < |s| ==> s[a] != s[b]
  }

  /** Every vector of the summary has one parameter; parameters without a name have an empty key. */
  predicate DistinctKeys(keys: seq<Key>) {
    forall a, b :: 0 <= a < b < |keys| && keys[a] != [] ==> keys[a] != keys[b]
  }

  /** The vectors are the keys that are not empty, each once. */
  predicate Listed(keyword: seq<Key>, keys: seq<Key>) {
    && NoRepeats(keyword) && [] !in keyword
    && (forall i :: 0 <= i < |keyword| ==> keyword[i] in keys)
    && (forall n :: 0 <= n < |keys| && keys[n] != [] ==> keys[n] in keyword)
  }

  // ------------------------------------------------------------------
  // Vectors that grow by a value per time step

  /** Each listed vector gets its value of the row. */
  function PushEach(data: seq<seq<Item>>, inds: seq<nat>, row: seq<Item>): (r: seq<seq<Item>>)
    requires |row| == |data| && forall k :: 0 <= k < |inds| ==> inds[k] < |data|
    ensures |r| == |data|
  {
    if inds == [] then data
    else
      var i := inds[|inds| - 1];
      var before := PushEach(data, inds[..|inds| - 1], row);
      before[i := before[i] + [row[i]]]
  }

  function PushRows(data: seq<seq<Item>>, inds: seq<nat>, rows: seq<seq<Item>>): (r: seq<seq<Item>>)
    requires forall t :: 0 <= t < |rows| ==> |rows[t]| == |data|
    requires forall k :: 0 <= k < |inds| ==> inds[k] < |data|
    ensures |r| == |data|
  {
    if rows == [] then data
    else PushEach(PushRows(data, inds, rows[..|rows| - 1]), inds, rows[|rows| - 1])
  }

  /** How often a vector is listed. */
  function Count(inds: seq<nat>, i: nat): nat {
    if inds == [] then 0 else Count(inds[..|inds| - 1], i) + if inds[|inds| - 1] == i then 1 else 0
  }

  lemma {:induction false} CountIs(inds: seq<nat>, i: nat)
    ensures Count(inds, i) > 0 <==> i in inds
    ensures NoRepeats(inds) ==> Count(inds, i) <= 1
  {
    if inds != [] {
      var init, last := inds[..|inds| - 1], inds[|inds| - 1];
      CountIs(init, i);
      assert inds == init + [last];
      assert forall k :: 0 <= k < |init| ==> inds[k] == init[k];
    }
  }

  lemma {:induction false} RepeatsCount(inds: seq<nat>, a: nat, b: nat)
    requires a < b < |inds| && inds[a] == inds[b]
    ensures Count(inds, inds[a]) >= 2
    decreases |inds|
  {
    var init := inds[..|inds| - 1];
    if b == |inds| - 1 {
      CountIs(init, inds[a]);
      assert init[a] in init;
    } else {
      RepeatsCount(init, a, b);
    }
  }

  lemma {:induction false} PushEachAt(data: seq<seq<Item>>, inds: seq<nat>, row: seq<Item>, i: nat)
    requires |row| == |data| && i < |data| && forall k :: 0 <= k < |inds| ==> inds[k] < |data|
    ensures |PushEach(data, inds, row)[i]| == |data[i]| + Count(inds, i)
    ensures Count(inds, i) == 0 ==> PushEach(data, inds, row)[i] == data[i]
    ensures Count(inds, i) == 1 ==> PushEach(data, inds, row)[i] == data[i] + [row[i]]
  {
    if inds != [] {
      PushEachAt(data, inds[..|inds| - 1], row, i);
    }
  }

  /** The values of vector i in some rows. */
  function Column(rows: seq<seq<Item>>, i: nat): (c: seq<Item>)
    requires forall t :: 0 <= t < |rows| ==> i < |rows[t]|
    ensures |c| == |rows|
  {
    seq(|rows|, t requires 0 <= t < |rows| => rows[t][i])
  }

  // A vector that is listed once gets its column, one that is not gets nothing,
  // and one that is listed again grows too long.
  lemma {:induction false} PushRowsAt(data: seq<seq<Item>>, inds: seq<nat>, rows: seq<seq<Item>>, i: nat)
    requires forall t :: 0 <= t < |rows| ==> |rows[t]| == |data|
    requires i < |data| && forall k :: 0 <= k < |inds| ==> inds[k] < |data|
    ensures |PushRows(data, inds, rows)[i]| == |data[i]| + Times(|rows|, Count(inds, i))
    ensures Count(inds, i) == 0 ==> PushRows(data, inds, rows)[i] == data[i]
    ensures Count(inds, i) == 1 ==> PushRows(data, inds, rows)[i] == data[i] + Column(rows, i)
  {
    if rows != [] {
      var init, last := rows[..|rows| - 1], rows[|rows| - 1];
      PushRowsAt(data, inds, init, i);
      PushEachAt(PushRows(data, inds, init), inds, last, i);
      TimesNext(|init|, Count(inds, i));
      assert Column(rows, i) == Column(init, i) + [last[i]];
    } else {
      assert data[i] + Column(rows, i) == data[i];
    }
  }

  lemma ColumnMore(rows: seq<seq<Item>>, t: nat, i: nat)
    requires t < |rows| && forall k :: 0 <= k < |rows| ==> i < |rows[k]|
    ensures Column(rows[..t + 1], i) == Column(rows[..t], i) + [rows[t][i]]
  {}

  /** The row of values of the vectors at some places of the parameters. */
  function Row(params: seq<Item>, places: seq<nat>): (r: seq<Item>)
    requires forall i :: 0 <= i < |places| ==> places[i] < |params|
    ensures |r| == |places|
  {
    seq(|places|, i requires 0 <= i < |places| => params[places[i]])
  }

  function Rows(params: seq<seq<Item>>, places: seq<nat>, n: nat): (r: seq<seq<Item>>)
    requires forall i :: 0 <= i < |places| ==> places[i] < n
    requires forall t :: 0 <= t < |params| ==> |params[t]| == n
    ensures |r| == |params| && forall t :: 0 <= t < |r| ==> r[t] == Row(params[t], places)
  {
    seq(|params|, t requires 0 <= t < |params| => Row(params[t], places))
  }

  // ------------------------------------------------------------------
  // The two orders of loading

  /** makeKeywPosVector up to parameter n: the vector of each parameter, or -1 for
      one without a name or named before. */
  function KeywPos(keyword: seq<Key>, keys: seq<Key>, n: nat): (r: seq<int>)
    requires n <= |keys|
    ensures |r| == n
    ensures forall p :: 0 <= p < n ==> -1 <= r[p] < |keyword|
  {
    if n == 0 then []
    else
      var r := KeywPos(keyword, keys, n - 1);
      var i := FirstPos(keyword, keys[n - 1]);
      r + [if i in r then -1 else i]
  }

  /** What the scan pushes for some parameters. */
  function PushScan(data: seq<seq<Item>>, loaded: seq<bool>, keywpos: seq<int>, items: seq<Item>): (r: seq<seq<Item>>)
    requires |loaded| == |data| && |items| <= |keywpos|
    requires forall p :: 0 <= p < |keywpos| ==> keywpos[p] < |data|
    ensures |r| == |data|
  {
    if items == [] then data
    else
      var p := |items| - 1;
      var before := PushScan(data, loaded, keywpos, items[..p]);
      var i := keywpos[p];
      if i >= 0 && !loaded[i] then before[i := before[i] + [items[p]]] else before
  }

  // A parameter gets the index of its vector exactly when it is the first of that name.
  lemma {:induction false} KeywPosAt(keyword: seq<Key>, keys: seq<Key>, n: nat, p: nat, i: nat)
    requires NoRepeats(keyword) && n <= |keys| && p < n && i < |keyword|
    ensures KeywPos(keyword, keys, n)[p] == i <==> keys[p] == keyword[i] && keyword[i] !in keys[..p]
    decreases n, 0
  {
    var r := KeywPos(keyword, keys, n - 1);
    if p < n - 1 {
      KeywPosAt(keyword, keys, n - 1, p, i);
    } else {
      var f := FirstPos(keyword, keys[p]);
      if keys[p] == keyword[i] {
        assert keyword[i] in keyword;
        assert f == i;
        KeywPosIn(keyword, keys, n - 1, i);
      }
    }
  }

  lemma {:induction false} KeywPosIn(keyword: seq<Key>, keys: seq<Key>, n: nat, i: nat)
    requires NoRepeats(keyword) && n <= |keys| && i < |keyword|
    ensures i in KeywPos(keyword, keys, n) <==> keyword[i] in keys[..n]
    decreases n, 1
  {
    var r := KeywPos(keyword, keys, n);
    if i in r {
      var p :| 0 <= p < n && r[p] == i;
      KeywPosAt(keyword, keys, n, p, i);
      assert keys[..n][p] == keys[p];
    }
    if keyword[i] in keys[..n] {
      var p := FirstPos(keys[..n], keyword[i]);
      assert keys[..n][..p] == keys[..p] && keys[..n][p] == keys[p];
      KeywPosAt(keyword, keys, n, p, i);
      assert r[p] in r;
    }
  }

  // The scan gives each vector that is not loaded the value of its first parameter.
  lemma {:induction false} PushScanAt(keyword: seq<Key>, keys: seq<Key>, data: seq<seq<Item>>, loaded: seq<bool>,
                                      items: seq<Item>, i: nat)
    requires NoRepeats(keyword) && |loaded| == |data| == |keyword| && |items| <= |keys| && i < |keyword|
    ensures
      var r := PushScan(data, loaded, KeywPos(keyword, keys, |keys|), items);
      var p := FirstPos(keys, keyword[i]);
      r[i] == if !loaded[i] && 0 <= p < |items| then data[i] + [items[p]] else data[i]
    decreases |items|
  {
    var keywpos := KeywPos(keyword, keys, |keys|);
    if items != [] {
      var q := |items| - 1;
      PushScanAt(keyword, keys, data, loaded, items[..q], i);
      KeywPosAt(keyword, keys, |keys|, q, i);
      FirstIs(keys, keyword[i], q);
    }
  }

  lemma {:induction false} FirstIs(keys: seq<Key>, key: Key, q: nat)
    requires q < |keys|
    ensures FirstPos(keys, key) == q <==> keys[q] == key && key !in keys[..q]
  {
    var p := FirstPos(keys, key);
    assert forall a, b :: 0 <= a < b < |keys| ==> keys[..b][a] == keys[a];
    assert keys[q] in keys;
  }

  // With distinct keys there is only one place of a key.
  lemma {:induction false} OnlyPlace(keys: seq<Key>, key: Key)
    requires DistinctKeys(keys) && key != [] && key in keys
    ensures FirstPos(keys, key) == LastPos(keys, key) >= 0
  {
    var p, q := FirstPos(keys, key), LastPos(keys, key);
    assert keys[p] == keys[q] == key;
  }

  lemma {:induction false} PlacesApart(keys: seq<Key>, a: nat, b: nat)
    requires a < b < |keys| && keys[a] == keys[b]
    ensures 0 <= FirstPos(keys, keys[a]) <= a && b <= LastPos(keys, keys[a])
    decreases |keys|
  {
    var p := FirstPos(keys, keys[a]);
    assert forall k :: 0 <= k < p ==> keys[..p][k] == keys[k] != keys[a];
    if keys[|keys| - 1] != keys[a] {
      PlacesApart(keys[..|keys| - 1], a, b);
    }
  }

  // ------------------------------------------------------------------
  // The index of the data file

  function Behind(acc: seq<Place>, r: Result<seq<Place>>): Result<seq<Place>> {
    if r.Err? then r else Ok(acc + r.value)
  }

  lemma {:induction false} ListRound(s: seq<byte>, pos: nat)
    ensures |s| < 16 ==> ListArrays(s, pos) == Err(ShortRead)
    ensures |s| >= 16 ==> ReadInt(s[12..]).Ok?
    ensures |s| >= 16 ==>
      (var skip := PlaceSkip(s[4..12], ReadInt(s[12..]).value);
       var here := [Place(Trim(s[4..12]), pos + 24)];
       ListArrays(s, pos)
       == if skip.Err? then Err(skip.error)
          else if |s| <= 24 + skip.value then Ok(here)
          else Behind(here, ListArrays(s[24 + skip.value..], pos + 24 + skip.value)))
  {
    hide BigEndianValue, PlaceSkip, Trim;
  }

  lemma {:induction false} BehindBehind(acc: seq<Place>, here: Place, r: Result<seq<Place>>)
    ensures Behind(acc, Behind([here], r)) == Behind(acc + [here], r)
    ensures Behind(acc, Ok([here])) == Ok(acc + [here])
    ensures r.Err? ==> Behind(acc, r) == r
  {
    assert r.Ok? ==> acc + ([here] + r.value) == acc + [here] + r.value;
  }

  lemma {:induction false} Nothing(r: Result<seq<Place>>)
    ensures Behind([], r) == r
  {
    assert r.Ok? ==> [] + r.value == r.value;
  }

  /** The name and the count of an array; the position is then that of its data. */
  method ReadPlace(file: Reader.InStream) returns (r: Result<(seq<byte>, int32)>)
    modifies file
    ensures var s := old(file.Rest());
      if |s| < 16 then r == Err(ShortRead)
      else ReadInt(s[12..]).Ok? && r == Ok((s[4..12], ReadInt(s[12..]).value)) && file.pos == old(file.pos) + 24
  {
    hide ReadInt, BigEndianValue, Reader.InStream.RestAt;
    ghost var s := file.Rest();
    HeaderParts(s);
    file.SeekOn(4);
    var arrName := file.Read(8);
    if arrName.Err? {
      return Err(ShortRead);
    }
    var num := file.ReadBinaryInt();
    if num.Err? {
      return Err(ShortRead);
    }
    file.SeekOn(8);
    return Ok((arrName.value, num.value));
  }

  lemma HeaderParts(s: seq<byte>)
    ensures |s| >= 16 ==> s[4..][..8] == s[4..12] && s[4..][8..] == s[12..] && ReadInt(s[12..]).Ok?
    ensures 12 <= |s| < 16 ==> s[4..][8..] == s[12..] && ReadInt(s[12..]) == Err(ShortRead)
  {}

  /** One round of the loop of getListOfArrays: an array and the skip over its data. */
  method NextPlace(file: Reader.InStream) returns (r: Result<Place>, endOfFile: bool)
    requires file.pos <= |file.content|
    modifies file
    ensures r.Err? ==> ListArrays(old(file.Rest()), old(file.pos)) == Err(r.error)
    ensures r.Ok? && endOfFile ==> ListArrays(old(file.Rest()), old(file.pos)) == Ok([r.value])
    ensures r.Ok? && !endOfFile ==> old(file.pos) < file.pos <= |file.content|
    ensures r.Ok? && !endOfFile ==>
      ListArrays(old(file.Rest()), old(file.pos)) == Behind([r.value], ListArrays(file.Rest(), file.pos))
  {
    hide ListArrays, PlaceSkip, Behind, ReadInt, BigEndianValue, Trim, Reader.InStream.RestAt;
    ghost var s, pos := file.Rest(), file.pos;
    endOfFile := false;
    RestLength(file);
    ListRound(s, pos);
    var head := ReadPlace(file);
    if head.Err? {
      return Err(head.error), false;
    }
    var skip := PlaceSkip(head.value.0, head.value.1);
    if skip.Err? {
      return Err(skip.error), false;
    }
    r := Ok(Place(Trim(head.value.0), file.pos));
    endOfFile := SkipData(file, skip.value);
    if !endOfFile {
      file.Advanced(pos, 24 + skip.value);
    }
  }

  /** The skip over the data, and whether the end of the file is reached. */
  method SkipData(file: Reader.InStream, skip: nat) returns (endOfFile: bool)
    modifies file
    ensures file.pos == old(file.pos) + skip
    ensures endOfFile <==> file.pos >= |file.content|
  {
    file.SeekOn(skip);
    endOfFile := file.pos >= |file.content|;
  }

  /** getListOfArrays of a data file. */
  method GetListOfArrays(file: Reader.InStream) returns (r: Result<seq<Place>>)
    modifies file
    ensures r == ListArrays(file.content, 0)
  {
    file.Seek(0);
    assert file.Rest() == file.content;
    hide ListArrays, Behind, Reader.InStream.Rest;
    var arrays: seq<Place> := [];
    ghost var goal := ListArrays(file.content, 0);
    Nothing(goal);
    var endOfFile := false;
    while !endOfFile
      invariant !endOfFile ==> file.pos <= |file.content| && goal == Behind(arrays, ListArrays(file.Rest(), file.pos))
      invariant endOfFile ==> goal == Ok(arrays)
      decreases !endOfFile, |file.content| - file.pos
    {
      var here;
      here, endOfFile := NextPlace(file);
      if here.Err? {
        BehindBehind(arrays, Place([], 0), Err(here.error));
        return Err(here.error);
      }
      BehindBehind(arrays, here.value, ListArrays(file.Rest(), file.pos));
      arrays := arrays + [here.value];
    }
    r := Ok(arrays);
  }

  lemma RestLength(file: Reader.InStream)
    ensures file.pos <= |file.content| ==> |file.Rest()| == |file.content| - file.pos
  {}

  /** The loop of the constructor over the arrays of a data file. */
  method IndexSteps(list: seq<Place>) returns (r: Result<Steps>)
    ensures r == StepsOf(list)
  {
    hide StepsFrom;
    if list == [] {
      return Err(OutOfRange);
    }
    var i, step := if list[0].name == "SEQHDR" then 1 else 0, 0;
    var pos: seq<nat>, seqIndex: seq<int> := [], [];
    ghost var goal := StepsOf(list);
    StepsNone(goal);
    while i < |list|
      invariant goal == StepsBehind(pos, seqIndex, StepsFrom(list, i, step))
      decreases |list| - i
    {
      StepsUnfold(list, i, step, pos, seqIndex);
      if list[i].name != MINISTEP {
        return Err(NotMinistep);
      }
      if i + 1 >= |list| {
        return Err(OutOfRange);
      }
      if list[i + 1].name != "PARAMS" {
        return Err(NotMinistep);
      }
      i := i + 1;
      pos := pos + [list[i].pos];
      i := i + 1;
      if i < |list| {
        if list[i].name == "SEQHDR" {
          i := i + 1;
          seqIndex := seqIndex + [step];
        }
      } else {
        seqIndex := seqIndex + [step];
        i := i + 1;
      }
      step := step + 1;
    }
    StepsLast(list, i, step, pos, seqIndex);
    r := Ok(Steps(pos, seqIndex));
  }

  function StepsBehind(pos: seq<nat>, last: seq<int>, r: Result<Steps>): Result<Steps> {
    if r.Err? then r else Ok(Steps(pos + r.value.pos, last + r.value.last))
  }

  lemma {:induction false} StepsNone(r: Result<Steps>)
    ensures StepsBehind([], [], r) == r
  {
    assert r.Ok? ==> [] + r.value.pos == r.value.pos && [] + r.value.last == r.value.last;
  }

  lemma {:induction false} StepsLast(list: seq<Place>, i: nat, step: nat, pos: seq<nat>, last: seq<int>)
    requires i >= |list|
    ensures StepsBehind(pos, last, StepsFrom(list, i, step)) == Ok(Steps(pos, last))
  {
    assert pos + [] == pos && last + [] == last;
  }

  lemma {:induction false} StepsUnfold(list: seq<Place>, i: nat, step: nat, pos: seq<nat>, last: seq<int>)
    requires i < |list|
    ensures
      var goal := StepsBehind(pos, last, StepsFrom(list, i, step));
      if list[i].name != MINISTEP then goal == Err(NotMinistep)
      else if i + 1 >= |list| then goal == Err(OutOfRange)
      else if list[i + 1].name != "PARAMS" then goal == Err(NotMinistep)
      else
        var report := i + 2 >= |list| || list[i + 2].name == "SEQHDR";
        goal == StepsBehind(pos + [list[i + 1].pos], if report then last + [step] else last,
                            StepsFrom(list, if report then i + 3 else i + 2, step + 1))
  {
    if list[i].name == MINISTEP && i + 1 < |list| && list[i + 1].name == "PARAMS" {
      var report := i + 2 >= |list| || list[i + 2].name == "SEQHDR";
      var more := StepsFrom(list, if report then i + 3 else i + 2, step + 1);
      if more.Ok? {
        var here := if report then [step] else [];
        assert last + (here + more.value.last) == (if report then last + [step] else last) + more.value.last;
        assert pos + ([list[i + 1].pos] + more.value.pos) == pos + [list[i + 1].pos] + more.value.pos;
      }
    }
  }

  // ------------------------------------------------------------------
  // The class

  class ESmry {
    const keyword: seq<Key>
    const keys: seq<Key>
    const file: Reader.InStream
    const stepPos: seq<nat>
    ghost const params: seq<seq<Item>>

    var vectorData: seq<seq<Item>>
    var vectorLoaded: seq<bool>

    constructor (keyword: seq<Key>, keys: seq<Key>, content: seq<byte>, stepPos: seq<nat>, ghost params: seq<seq<Item>>)
      requires Listed(keyword, keys)
      ensures Valid() && fresh(file) && this.keyword == keyword && this.keys == keys && file.content == content
      ensures this.stepPos == stepPos && this.params == params
      ensures forall i :: 0 <= i < |keyword| ==> vectorData[i] == [] && !vectorLoaded[i]
    {
      this.keyword, this.keys, this.stepPos, this.params := keyword, keys, stepPos, params;
      file := new Reader.InStream(content);
      vectorData := seq(|keyword|, _ => []);
      vectorLoaded := seq(|keyword|, _ => false);
    }

    ghost predicate Valid()
      reads `vectorData, `vectorLoaded
    {
      Listed(keyword, keys) && |vectorData| == |vectorLoaded| == |keyword|
    }

    /** The parameters of the time steps are in the file where the index says. */
    ghost predicate Intact() {
      LoadsAll(file.content, stepPos, params) && forall t :: 0 <= t < |params| ==> |params[t]| == |keys|
    }

    /** Where LoadData(list) looks for each vector. */
    function LastPlaces(): (r: seq<nat>)
      requires Listed(keyword, keys)
      ensures |r| == |keyword| && forall i :: 0 <= i < |r| ==> r[i] == LastPos(keys, keyword[i]) < |keys|
    {
      seq(|keyword|, i requires 0 <= i < |keyword| => LastPos(keys, keyword[i]))
    }

    /** Where the scan finds each vector. */
    function FirstPlaces(): (r: seq<nat>)
      requires Listed(keyword, keys)
      ensures |r| == |keyword| && forall i :: 0 <= i < |r| ==> r[i] == FirstPos(keys, keyword[i]) < |keys|
    {
      seq(|keyword|, i requires 0 <= i < |keyword| => FirstPos(keys, keyword[i]))
    }

    /** The vectors of some keys. */
    function Indices(list: seq<Key>): (r: seq<nat>)
      requires forall k :: 0 <= k < |list| ==> list[k] in keyword
      ensures |r| == |list| && forall k :: 0 <= k < |r| ==> r[k] == FirstPos(keyword, list[k]) < |keyword|
    {
      seq(|list|, k requires 0 <= k < |list| => FirstPos(keyword, list[k]))
    }

    /** The values of all vectors, time step by time step, where random access looks. */
    ghost function LastRows(): (r: seq<seq<Item>>)
      requires Listed(keyword, keys) && Intact()
      ensures |r| == |stepPos| && forall t :: 0 <= t < |r| ==> |r[t]| == |keyword|
    {
      Rows(params, LastPlaces(), |keys|)
    }

    // ----------------------------------------------------------------
    // Random access

    /** One value by its computed offset. */
    method ReadElement(t: nat, i: nat) returns (v: Item)
      requires Valid() && Intact() && t < |stepPos| && i < |keyword|
      modifies file
      ensures v == LastRows()[t][i]
    {
      hide ItemValue, ReadBlocks, ReadItem;
      var paramPos := LastPos(keys, keyword[i]);
      assert keyword[i] in keys;
      file.Seek(stepPos[t] + ElementOffset(paramPos));
      assert Loads(file.content, stepPos[t], params[t]);
      RandomAccessIsScan(file.content[stepPos[t]..], |keys|, paramPos);
      Dropped(file.content, stepPos[t], ElementOffset(paramPos));
      var r := file.ReadValue(REAL, 4);
      v := r.value;
    }

    /** LoadData(list): for every time step, the value of each listed vector. A vector
        that is listed twice, or that is loaded already, gets its values once more. */
    method LoadNames(list: seq<Key>) returns (r: Result<()>)
      requires Valid() && Intact()
      modifies `vectorData, `vectorLoaded, file
      ensures Valid()
      ensures r.Ok? <==> forall k :: 0 <= k < |list| ==> list[k] in keyword
      ensures r.Err? ==> r.error == NotFound && vectorData == old(vectorData) && vectorLoaded == old(vectorLoaded)
      ensures r.Ok? ==> vectorData == PushRows(old(vectorData), Indices(list), LastRows())
      ensures r.Ok? ==>
        forall i :: 0 <= i < |keyword| ==> vectorLoaded[i] == (old(vectorLoaded)[i] || i in Indices(list))
    {
      hide Listed, LastRows, Intact;
      var inds: seq<nat> := [];
      for k := 0 to |list|
        invariant forall j :: 0 <= j < k ==> list[j] in keyword
        invariant inds == Indices(list[..k])
      {
        if list[k] !in keyword {
          return Err(NotFound);
        }
        inds := inds + [FirstPos(keyword, list[k])];
      }
      assert list[..|list|] == list;
      ghost var rows := LastRows();
      for t := 0 to |stepPos|
        invariant Valid() && vectorLoaded == old(vectorLoaded)
        invariant vectorData == PushRows(old(vectorData), inds, rows[..t])
      {
        assert rows[..t + 1][..t] == rows[..t];
        LoadStep(t, inds);
      }
      assert rows[..|stepPos|] == rows;
      MarkLoaded(inds);
      return Ok(());
    }

    /** One time step of that loop. */
    method LoadStep(t: nat, inds: seq<nat>)
      requires Valid() && Intact() && t < |stepPos| && forall k :: 0 <= k < |inds| ==> inds[k] < |keyword|
      modifies `vectorData, file
      ensures Valid() && vectorData == PushEach(old(vectorData), inds, LastRows()[t])
    {
      hide Listed, LastRows, Intact;
      for k := 0 to |inds|
        invariant Valid() && vectorData == PushEach(old(vectorData), inds[..k], LastRows()[t])
      {
        assert inds[..k + 1][..k] == inds[..k];
        var v := ReadElement(t, inds[k]);
        vectorData := vectorData[inds[k] := vectorData[inds[k]] + [v]];
      }
      assert inds[..|inds|] == inds;
    }

    method MarkLoaded(inds: seq<nat>)
      requires Valid() && forall k :: 0 <= k < |inds| ==> inds[k] < |keyword|
      modifies `vectorLoaded
      ensures Valid()
      ensures forall i :: 0 <= i < |keyword| ==> vectorLoaded[i] == (old(vectorLoaded)[i] || i in inds)
    {
      hide Listed;
      for k := 0 to |inds|
        invariant Valid()
        invariant forall i :: 0 <= i < |keyword| ==> vectorLoaded[i] == (old(vectorLoaded)[i] || i in inds[..k])
      {
        assert inds[..k + 1] == inds[..k] + [inds[k]];
        vectorLoaded := vectorLoaded[inds[k] := true];
      }
      assert inds[..|inds|] == inds;
    }

    // ----------------------------------------------------------------
    // The scan

    /** makeKeywPosVector. */
    method MakeKeywPosVector() returns (keywpos: seq<int>)
      ensures keywpos == KeywPos(keyword, keys, |keys|)
    {
      keywpos := [];
      for n := 0 to |keys|
        invariant keywpos == KeywPos(keyword, keys, n)
      {
        var i := FirstPos(keyword, keys[n]);
        if i < 0 {
          keywpos := keywpos + [-1];
        } else if i in keywpos {
          keywpos := keywpos + [-1];
        } else {
          keywpos := keywpos + [i];
        }
      }
    }

    /** The values of one block: each goes to its vector if that is not loaded. The
        source has no guard against a block with more values than parameters. */
    method PushBlock(num: nat, keywpos: seq<int>, p0: nat) returns (r: Result<nat>)
      requires Valid() && |keywpos| == |keys| && (forall p :: 0 <= p < |keywpos| ==> keywpos[p] < |keyword|)
      requires p0 <= |keywpos|
      modifies `vectorData, file
      ensures Valid()
      ensures r.Ok? ==> r.value == p0 + num <= |keywpos|
      ensures
        var items := ReadItems(old(file.Rest()), num, REAL, 4);
        if items.Err? then r == Err(items.error) || r == Err(OutOfRange)
        else p0 + num > |keywpos| ==> r == Err(OutOfRange)
      ensures
        var items := ReadItems(old(file.Rest()), num, REAL, 4);
        items.Ok? && p0 + num <= |keywpos| ==>
          (r == Ok(p0 + num) && file.pos == old(file.pos) + Times(num, 4)
           && vectorData == PushFrom(old(vectorData), vectorLoaded, keywpos, p0, items.value))
    {
      hide Listed, ReadItem, ItemValue, Times, ReadItems, PushFrom, Reader.InStream.RestAt;
      var p := p0;
      ghost var start, data0 := file.Rest(), vectorData;
      ghost var goal := ReadItems(start, num, REAL, 4);
      Reader.PrependNothing(goal, Ok(Loaded([], [])));
      ghost var done := [];
      PushFromNone(data0, vectorLoaded, keywpos, p0);
      TimesNext(0, 4);
      for i := 0 to num
        invariant Valid() && p == p0 + i == p0 + |done| <= |keywpos|
        invariant file.pos == old(file.pos) + Times(i, 4)
        invariant goal == Reader.PrependItems(done, ReadItems(file.Rest(), num - i, REAL, 4))
        invariant vectorData == PushFrom(data0, vectorLoaded, keywpos, p0, done)
      {
        Reader.StepItems(file.Rest(), num - i, REAL, 4, done);
        TimesNext(i, 4);
        var value := file.ReadValue(REAL, 4);
        if value.Err? {
          return Err(value.error);
        }
        if p >= |keywpos| {
          return Err(OutOfRange);
        }
        PushFromMore(data0, vectorLoaded, keywpos, p0, done, value.value);
        if keywpos[p] > -1 && !vectorLoaded[keywpos[p]] {
          vectorData := vectorData[keywpos[p] := vectorData[keywpos[p]] + [value.value]];
        }
        done := done + [value.value];
        p := p + 1;
      }
      Reader.LastItems(file.Rest(), REAL, 4, done);
      r := Ok(p);
    }

    /** The scan of one time step. */
    method ScanStep(pos: nat, keywpos: seq<int>) returns (r: Result<()>)
      requires Valid() && |keywpos| == |keys| && (forall p :: 0 <= p < |keywpos| ==> keywpos[p] < |keyword|)
      modifies `vectorData, file
      ensures Valid()
      ensures
        var l := ReadBlocks(file.RestAt(pos), |keys|, REAL, 4);
        match l
        case Err(e) => r == Err(e) || r == Err(OutOfRange)
        case Ok(row) => r == Ok(()) && |row.items| == |keys|
                        && vectorData == PushScan(old(vectorData), vectorLoaded, keywpos, row.items)
    {
      hide Listed, ReadInt, ReadItems, ReadBlocks, Times, PushScan, PushFrom, Reader.PrependLoaded,
        Reader.InStream.RestAt;
      file.Seek(pos);
      ghost var data0 := vectorData;
      ghost var goal := ReadBlocks(file.Rest(), |keys|, REAL, 4);
      Reader.PrependNothing(Ok([]), goal);
      ghost var done := [];
      var rest: int, p: nat := |keys|, 0;
      PushFromNone(data0, vectorLoaded, keywpos, 0);
      while rest > 0
        invariant Valid() && p <= |keywpos| && rest <= |keys|
        invariant p == |done| == |keys| - rest
        invariant goal == Reader.PrependLoaded(done, ReadBlocks(file.Rest(), rest, REAL, 4))
        invariant vectorData == PushFrom(data0, vectorLoaded, keywpos, 0, done)
        decreases rest
      {
        Reader.StepBlocks(file.Rest(), rest, REAL, 4, done);
        ghost var s := file.Rest();
        var head := file.ReadBinaryInt();
        if head.Err? {
          return Err(head.error);
        }
        var num := TruncDiv(head.value, 4);
        if num > 1000 || num < 0 {
          return Err(BlockHead);
        }
        ghost var from := file.pos;
        ghost var items := ReadItems(s[4..], num, REAL, 4);
        if items.Ok? && p + num <= |keywpos| {
          PushFromMany(data0, vectorLoaded, keywpos, done, items.value);
        }
        var next := PushBlock(num, keywpos, p);
        if next.Err? {
          return Err(next.error);
        }
        file.Advanced(from, Times(num, 4));
        done := done + items.value;
        rest := rest - num;
        if (num < 1000 && rest != 0) || (num == 1000 && rest < 0) {
          return Err(BlockCount);
        }
        var tail := file.ReadBinaryInt();
        if tail.Err? {
          return Err(tail.error);
        }
        if head.value != tail.value {
          return Err(BlockTail);
        }
        p := next.value;
      }
      Reader.LastBlocks(file.Rest(), rest, REAL, 4, done);
      PushFromStart(data0, vectorLoaded, keywpos, done);
      r := Ok(());
    }

    /** The values of all vectors, time step by time step, where the scan finds them. */
    ghost function FirstRows(): (r: seq<seq<Item>>)
      requires Listed(keyword, keys) && Intact()
      ensures |r| == |stepPos| && forall t :: 0 <= t < |r| ==> |r[t]| == |keyword|
    {
      Rows(params, FirstPlaces(), |keys|)
    }

    /** What the scan has pushed after some time steps. */
    ghost predicate Scanned(data0: seq<seq<Item>>, loaded: seq<bool>, t: nat, data: seq<seq<Item>>)
      requires Listed(keyword, keys) && t <= |stepPos| && |data0| == |loaded| == |data| == |keyword|
    {
      Intact() ==>
        forall i :: 0 <= i < |keyword| ==>
          data[i] == if loaded[i] then data0[i] else data0[i] + Column(FirstRows()[..t], i)
    }

    lemma {:induction false} ScannedNone(data: seq<seq<Item>>, loaded: seq<bool>)
      requires Listed(keyword, keys) && |loaded| == |data| == |keyword|
      ensures Scanned(data, loaded, 0, data)
    {
      assert Intact() ==> FirstRows()[..0] == [];
    }

    lemma {:induction false} ScannedMore(data0: seq<seq<Item>>, loaded: seq<bool>, t: nat, data: seq<seq<Item>>,
                                         next: seq<seq<Item>>)
      requires Listed(keyword, keys) && Intact() && t < |stepPos| && |data0| == |loaded| == |data| == |keyword|
      requires Scanned(data0, loaded, t, data)
      requires next == PushScan(data, loaded, KeywPos(keyword, keys, |keys|), params[t])
      ensures Scanned(data0, loaded, t + 1, next)
    {
      hide PushScan, KeywPos, Intact, FirstRows;
      var rows := FirstRows();
      forall i | 0 <= i < |keyword|
        ensures next[i] == if loaded[i] then data0[i] else data0[i] + Column(rows[..t + 1], i)
      {
        RowAt(t, i);
        PushScanAt(keyword, keys, data, loaded, params[t], i);
        ColumnMore(rows, t, i);
        assert data0[i] + Column(rows[..t], i) + [rows[t][i]] == data0[i] + (Column(rows[..t], i) + [rows[t][i]]);
      }
    }

    lemma {:induction false} RowAt(t: nat, i: nat)
      requires Listed(keyword, keys) && Intact() && t < |stepPos| && i < |keyword|
      ensures |params| == |stepPos| && |params[t]| == |keys|
      ensures 0 <= FirstPos(keys, keyword[i]) && FirstRows()[t][i] == params[t][FirstPos(keys, keyword[i])]
    {
      assert FirstPlaces()[i] == FirstPos(keys, keyword[i]);
    }

    lemma {:induction false} StepIntact(t: nat)
      requires Intact() && t < |stepPos|
      ensures t < |params| && |params[t]| == |keys|
      ensures var l := ReadBlocks(file.RestAt(stepPos[t]), |keys|, REAL, 4);
        l.Ok? && l.value.items == params[t]
    {
      assert Loads(file.content, stepPos[t], params[t]);
    }

    /** The parameters of the first n time steps can be read, block by block. */
    ghost predicate Readable(n: nat)
      requires n <= |stepPos|
    {
      forall t :: 0 <= t < n ==> ReadBlocks(file.RestAt(stepPos[t]), |keys|, REAL, 4).Ok?
    }

    /** LoadData(): one scan of the parameters of every time step. */
    method LoadAll() returns (r: Result<()>)
      requires Valid()
      modifies `vectorData, `vectorLoaded, file
      ensures Valid()
      ensures r.Ok? ==> Scanned(old(vectorData), old(vectorLoaded), |stepPos|, vectorData)
      ensures r.Ok? ==> forall i :: 0 <= i < |keyword| ==> vectorLoaded[i]
      ensures r.Ok? <==> Readable(|stepPos|)
      ensures Intact() ==> r.Ok?
      ensures Intact() && DistinctKeys(keys) && old(Good()) ==> Good()
    {
      hide Listed, PushScan, Intact, ReadBlocks, Scanned, KeywPos, GoodState, Reader.InStream.RestAt;
      var keywpos := MakeKeywPosVector();
      ScannedNone(vectorData, vectorLoaded);
      for t := 0 to |stepPos|
        invariant Valid() && vectorLoaded == old(vectorLoaded)
        invariant Scanned(old(vectorData), vectorLoaded, t, vectorData)
        invariant Readable(t)
      {
        ghost var before := vectorData;
        if Intact() {
          StepIntact(t);
        }
        var step := ScanStep(stepPos[t], keywpos);
        if step.Err? {
          return step;
        }
        if Intact() {
          ScannedMore(old(vectorData), vectorLoaded, t, before, vectorData);
        } else {
          ScannedAnyway(old(vectorData), vectorLoaded, t + 1, vectorData);
        }
      }
      ghost var loaded0 := vectorLoaded;
      vectorLoaded := seq(|keyword|, _ => true);
      if Intact() && DistinctKeys(keys) && old(Good()) {
        ScanIsGood(old(vectorData), loaded0, vectorData, vectorLoaded);
      }
      r := Ok(());
    }

    lemma ScannedAnyway(data0: seq<seq<Item>>, loaded: seq<bool>, t: nat, data: seq<seq<Item>>)
      requires Listed(keyword, keys) && t <= |stepPos| && |data0| == |loaded| == |data| == |keyword|
      requires !Intact()
      ensures Scanned(data0, loaded, t, data)
    {}

    // ----------------------------------------------------------------
    // Interleavings

    /** The value of vector i in every time step. */
    ghost function Values(i: nat): (v: seq<Item>)
      requires Listed(keyword, keys) && Intact() && i < |keyword|
      ensures |v| == |stepPos|
    {
      Column(LastRows(), i)
    }

    /** Every vector holds its value of every time step, or nothing if not loaded. */
    ghost predicate GoodState(data: seq<seq<Item>>, loaded: seq<bool>)
      requires Listed(keyword, keys) && Intact() && |data| == |loaded| == |keyword|
    {
      forall i :: 0 <= i < |keyword| ==> data[i] == if loaded[i] then Values(i) else []
    }

    ghost predicate Good()
      requires Valid() && Intact()
      reads `vectorData, `vectorLoaded
    {
      GoodState(vectorData, vectorLoaded)
    }

    // With distinct keys the scan and random access find the same values.
    lemma {:induction false} SameRows()
      requires Listed(keyword, keys) && Intact() && DistinctKeys(keys)
      ensures FirstRows() == LastRows()
    {
      forall i | 0 <= i < |keyword| ensures FirstPlaces()[i] == LastPlaces()[i] {
        assert keyword[i] in keyword && keyword[i] in keys;
        OnlyPlace(keys, keyword[i]);
      }
      assert FirstPlaces() == LastPlaces();
    }

    /** What the scan of one time step loads, from vectors that are empty. */
    function ScanLoads(row: seq<Item>): (r: seq<seq<Item>>)
      requires Listed(keyword, keys) && |row| == |keys|
      ensures |r| == |keyword|
    {
      PushScan(seq(|keyword|, _ => []), seq(|keyword|, _ => false), KeywPos(keyword, keys, |keys|), row)
    }

    /** What random access to every vector loads of the time step. */
    function AccessLoads(row: seq<Item>): (r: seq<seq<Item>>)
      requires Listed(keyword, keys) && |row| == |keys|
      ensures |r| == |keyword|
    {
      PushEach(seq(|keyword|, _ => []), seq(|keyword|, i => i), Row(row, LastPlaces()))
    }

    lemma {:induction false} LoadsAt(row: seq<Item>, i: nat)
      requires Listed(keyword, keys) && |row| == |keys| && i < |keyword|
      ensures keyword[i] in keys
      ensures ScanLoads(row)[i] == [row[FirstPos(keys, keyword[i])]]
      ensures AccessLoads(row)[i] == [row[LastPos(keys, keyword[i])]]
    {
      hide PushScan, PushEach, KeywPos, Count;
      var none: seq<seq<Item>>, all: seq<nat> := seq(|keyword|, _ => []), seq(|keyword|, i => i);
      assert keyword[i] in keyword;
      PushScanAt(keyword, keys, none, seq(|keyword|, _ => false), row, i);
      assert all[i] == i;
      CountIs(all, i);
      PushEachAt(none, all, Row(row, LastPlaces()), i);
      assert none[i] + [row[FirstPos(keys, keyword[i])]] == [row[FirstPos(keys, keyword[i])]];
      assert none[i] + [row[LastPos(keys, keyword[i])]] == [row[LastPos(keys, keyword[i])]];
    }

    // The scan and random access load the same, whatever the parameters of the time
    // step are, if and only if no key is repeated.
    lemma {:induction false} OrdersAgreeIff()
      requires Listed(keyword, keys)
      ensures (forall row: seq<Item> :: |row| == |keys| ==> ScanLoads(row) == AccessLoads(row)) <==> DistinctKeys(keys)
    {
      hide Row;
      if DistinctKeys(keys) {
        forall row: seq<Item> | |row| == |keys| ensures ScanLoads(row) == AccessLoads(row) {
          forall i | 0 <= i < |keyword| ensures ScanLoads(row)[i] == AccessLoads(row)[i] {
            LoadsAt(row, i);
            assert keyword[i] in keyword;
            OnlyPlace(keys, keyword[i]);
          }
        }
      } else {
        var row := TellingRow();
        assert ScanLoads(row) != AccessLoads(row);
      }
    }

    // Parameters that tell the places of a repeated key apart.
    lemma {:induction false} TellingRow() returns (row: seq<Item>)
      requires Listed(keyword, keys) && !DistinctKeys(keys)
      ensures |row| == |keys| && ScanLoads(row) != AccessLoads(row)
    {
      var a, b :| 0 <= a < b < |keys| && keys[a] != [] && keys[a] == keys[b];
      var i := FirstPos(keyword, keys[a]);
      var p := FirstPos(keys, keys[a]);
      PlacesApart(keys, a, b);
      row := seq(|keys|, k => Bool(k == p));
      LoadsAt(row, i);
      assert ScanLoads(row)[i] != AccessLoads(row)[i];
    }

    // A vector that is named twice gets two values per time step.
    lemma {:induction false} NamedTwice(data: seq<seq<Item>>, k: Key)
      requires Listed(keyword, keys) && Intact() && k in keyword && |data| == |keyword|
      ensures
        var i := FirstPos(keyword, k);
        |PushRows(data, Indices([k, k]), LastRows())[i]| == |data[i]| + 2 * |stepPos|
    {
      hide LastRows, PushRows, Intact, Listed;
      var i, inds := FirstPos(keyword, k), Indices([k, k]);
      PushRowsAt(data, inds, LastRows(), i);
      assert inds == [i, i] && inds[..1] == [i] && inds[..1][..0] == [];
      assert Count(inds[..1], i) == 1 && Count(inds, i) == 2;
      TimesIs(|stepPos|, 2);
    }

    // The scan completes the vectors: those loaded before are not touched again.
    lemma {:induction false} ScanIsGood(data0: seq<seq<Item>>, loaded0: seq<bool>, data: seq<seq<Item>>,
                                        loaded: seq<bool>)
      requires Listed(keyword, keys) && Intact() && DistinctKeys(keys)
      requires |data0| == |loaded0| == |data| == |loaded| == |keyword|
      requires GoodState(data0, loaded0) && Scanned(data0, loaded0, |stepPos|, data)
      requires forall i :: 0 <= i < |keyword| ==> loaded[i]
      ensures GoodState(data, loaded)
    {
      hide Listed, Intact, FirstRows, LastRows;
      SameRows();
      assert FirstRows()[..|stepPos|] == FirstRows();
      assert forall i :: 0 <= i < |keyword| ==> [] + Values(i) == Values(i);
    }

    // A vector has one value per time step afterwards exactly if it is not loaded, or
    // once and for the first time.
    lemma {:induction false} VectorIsGoodIff(data0: seq<seq<Item>>, loaded0: seq<bool>, inds: seq<nat>, i: nat)
      requires Listed(keyword, keys) && Intact() && |stepPos| > 0 && i < |keyword|
      requires |data0| == |loaded0| == |keyword| && GoodState(data0, loaded0)
      requires forall k :: 0 <= k < |inds| ==> inds[k] < |keyword|
      ensures PushRows(data0, inds, LastRows())[i] == (if loaded0[i] || Count(inds, i) > 0 then Values(i) else [])
        <==> (Count(inds, i) == 0 || (Count(inds, i) == 1 && !loaded0[i]))
    {
      hide Listed, Intact, LastRows, PushRows, Count;
      var n, count := |stepPos|, Count(inds, i);
      PushRowsAt(data0, inds, LastRows(), i);
      TimesIs(n, count);
      assert [] + Values(i) == Values(i);
      if count >= 1 {
        AtLeast(n, count);
        if count >= 2 {
          AtLeastTwice(n, count);
        }
      }
    }

    // LoadData(list) leaves each vector with one value per time step if and only if
    // no key is listed twice and none of the vectors was loaded before.
    lemma {:induction false} LoadIsGoodIff(data0: seq<seq<Item>>, loaded0: seq<bool>, list: seq<Key>,
                                           data: seq<seq<Item>>, loaded: seq<bool>)
      requires Listed(keyword, keys) && Intact() && |stepPos| > 0
      requires |data0| == |loaded0| == |data| == |loaded| == |keyword| && GoodState(data0, loaded0)
      requires forall k :: 0 <= k < |list| ==> list[k] in keyword
      requires data == PushRows(data0, Indices(list), LastRows())
      requires forall i :: 0 <= i < |keyword| ==> loaded[i] == (loaded0[i] || i in Indices(list))
      ensures GoodState(data, loaded) <==>
        NoRepeats(list) && forall k :: 0 <= k < |list| ==> !loaded0[Indices(list)[k]]
    {
      hide Listed, Intact, LastRows, PushRows, Count;
      var inds := Indices(list);
      RepeatsAre(list);
      forall i | 0 <= i < |keyword|
        ensures data[i] == (if loaded[i] then Values(i) else [])
          <==> (Count(inds, i) == 0 || (Count(inds, i) == 1 && !loaded0[i]))
      {
        CountIs(inds, i);
        VectorIsGoodIff(data0, loaded0, inds, i);
      }
      if NoRepeats(inds) {
        forall i | 0 <= i < |keyword| ensures Count(inds, i) <= 1 { CountIs(inds, i); }
      } else {
        var a, b :| 0 <= a < b < |inds| && inds[a] == inds[b];
        RepeatsCount(inds, a, b);
      }
      forall i | 0 <= i < |keyword| ensures Count(inds, i) > 0 <==> i in inds { CountIs(inds, i); }
    }

    lemma {:induction false} RepeatsAre(list: seq<Key>)
      requires forall k :: 0 <= k < |list| ==> list[k] in keyword
      ensures NoRepeats(list) <==> NoRepeats(Indices(list))
    {
      var inds := Indices(list);
      assert forall k :: 0 <= k < |list| ==> keyword[inds[k]] == list[k];
    }

    /** get: the vector is loaded if it is not. */
    method Get(name: Key) returns (r: Result<seq<Item>>)
      requires Valid() && Intact()
      modifies `vectorData, `vectorLoaded, file
      ensures Valid()
      ensures name !in keyword ==>
        r == Err(NotFound) && vectorData == old(vectorData) && vectorLoaded == old(vectorLoaded)
      ensures name in keyword ==> r == Ok(vectorData[FirstPos(keyword, name)]) && vectorLoaded[FirstPos(keyword, name)]
      ensures old(Good()) && |stepPos| > 0 ==> Good()
      ensures old(Good()) && |stepPos| > 0 && name in keyword ==> r == Ok(Values(FirstPos(keyword, name)))
    {
      hide Listed, Intact, LastRows, PushRows;
      if name !in keyword {
        return Err(NotFound);
      }
      var ind := FirstPos(keyword, name);
      if !vectorLoaded[ind] {
        var _ := LoadNames([name]);
        if old(Good()) && |stepPos| > 0 {
          LoadIsGoodIff(old(vectorData), old(vectorLoaded), [name], vectorData, vectorLoaded);
        }
        assert ind == Indices([name])[0];
        vectorLoaded := vectorLoaded[ind := true];
        assert vectorLoaded[ind];
      }
      r := Ok(vectorData[ind]);
    }
  }

  lemma {:induction false} AtLeastTwice(w: nat, d: nat)
    requires d >= 2
    ensures w * d >= 2 * w
  {
    AtLeast(w, d - 1);
    Distribute(w, d, 1);
  }

  // Of a key that stands twice, the scan keeps the first value and random access finds
  // the second.
  lemma {:induction false} RepeatedKey(k: Key, x: Item, y: Item)
    requires k != []
    ensures Listed([k], [k, k]) && !DistinctKeys([k, k])
    ensures PushScan([[]], [false], KeywPos([k], [k, k], 2), [x, y]) == [[x]]
    ensures LastPos([k, k], k) == 1 && PushEach([[]], [0], [[x, y][LastPos([k, k], k)]]) == [[y]]
  {
    var keys, items := [k, k], [x, y];
    assert keys[0] == keys[1] == k;
    PushScanAt([k], keys, [[]], [false], items, 0);
    FirstIs(keys, k, 0);
    var inds: seq<nat> := [0];
    assert inds[..0] == [] && [] + [y] == [y];
    assert [] + [x] == [x];
  }

  lemma {:induction false} PushFromMany(data: seq<seq<Item>>, loaded: seq<bool>, keywpos: seq<int>, a: seq<Item>,
                                        b: seq<Item>)
    requires |loaded| == |data| && |a| + |b| <= |keywpos|
    requires forall k :: 0 <= k < |keywpos| ==> keywpos[k] < |data|
    ensures PushFrom(PushFrom(data, loaded, keywpos, 0, a), loaded, keywpos, |a|, b)
         == PushFrom(data, loaded, keywpos, 0, a + b)
    decreases |b|
  {
    hide PushFrom;
    var mid := PushFrom(data, loaded, keywpos, 0, a);
    if b == [] {
      assert a + b == a;
      PushFromNone(mid, loaded, keywpos, |a|);
    } else {
      var init, v := b[..|b| - 1], b[|b| - 1];
      PushFromMany(data, loaded, keywpos, a, init);
      PushFromMore(mid, loaded, keywpos, |a|, init, v);
      PushFromMore(data, loaded, keywpos, 0, a + init, v);
      assert init + [v] == b && a + init + [v] == a + b;
    }
  }

  /** PushScan from parameter p on. */
  function PushFrom(data: seq<seq<Item>>, loaded: seq<bool>, keywpos: seq<int>, p: nat,
                    items: seq<Item>): (r: seq<seq<Item>>)
    requires |loaded| == |data| && p + |items| <= |keywpos|
    requires forall k :: 0 <= k < |keywpos| ==> keywpos[k] < |data|
    ensures |r| == |data|
  {
    PushScan(data, loaded, keywpos[p..], items)
  }

  lemma PushFromNone(data: seq<seq<Item>>, loaded: seq<bool>, keywpos: seq<int>, p: nat)
    requires |loaded| == |data| && p <= |keywpos|
    requires forall k :: 0 <= k < |keywpos| ==> keywpos[k] < |data|
    ensures PushFrom(data, loaded, keywpos, p, []) == data
  {}

  lemma {:induction false} PushFromStart(data: seq<seq<Item>>, loaded: seq<bool>, keywpos: seq<int>, items: seq<Item>)
    requires |loaded| == |data| && |items| <= |keywpos|
    requires forall k :: 0 <= k < |keywpos| ==> keywpos[k] < |data|
    ensures PushFrom(data, loaded, keywpos, 0, items) == PushScan(data, loaded, keywpos, items)
  {
    assert keywpos[0..] == keywpos;
  }

  lemma {:induction false} PushFromMore(data: seq<seq<Item>>, loaded: seq<bool>, keywpos: seq<int>, p: nat,
                                        items: seq<Item>, v: Item)
    requires |loaded| == |data| && p + |items| < |keywpos|
    requires forall k :: 0 <= k < |keywpos| ==> keywpos[k] < |data|
    ensures
      var before := PushFrom(data, loaded, keywpos, p, items);
      var i := keywpos[p + |items|];
      PushFrom(data, loaded, keywpos, p, items + [v])
      == if i >= 0 && !loaded[i] then before[i := before[i] + [v]] else before
  {
    assert (items + [v])[..|items|] == items;
  }
}
