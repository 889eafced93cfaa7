// What an unformatted file looks like, byte by byte: where every element of an array
// stands, what the blocks around it announce, and what its header says.

module BinaryLayout {
  import opened Bytes
  import opened Arith
  import opened Text
  import opened EclData
  import opened BinaryFormat
  import opened EclHeader
  import opened EclIndex

  // ------------------------------------------------------------------
  // Bytes

  /** The number that the four bytes at p stand for, most significant first. */
  ghost function Number(s: seq<byte>, p: nat): int
    requires p + 4 <= |s|
  {
    var u := 16777216 * s[p] as int + 65536 * s[p + 1] as int + 256 * s[p + 2] as int + s[p + 3] as int;
    if u < 2147483648 then u else u - 4294967296
  }

  /** A string at p, with blanks up to its width. */
  ghost predicate Padded(s: seq<byte>, p: nat, text: seq<byte>, width: nat)
    requires p + width <= |s|
  {
    forall j :: 0 <= j < width ==> s[p + j] == if j < |text| then text[j] else ' '
  }

  /** Bytes of an element. */
  ghost function Room(t: EclArrType, width: nat): nat {
    if t.DOUB? || t.CHAR? then 8 else if t.C0NN? then width else 4
  }

  /** Elements of a full block. */
  ghost function PerBlock(t: EclArrType): nat {
    if t.CHAR? || t.C0NN? then 105 else 1000
  }

  /** An element at p: numbers with their most significant byte first, a true value as
      all ones, or as one in the other dialect. */
  ghost predicate ElementAt(s: seq<byte>, p: nat, t: EclArrType, width: nat, ix: bool, v: Item)
    requires Fits(t, width, v) && p + Room(t, width) <= |s|
  {
    match v
    case Int(i) => Number(s, p) == i
    case Word(w) => forall j :: 0 <= j < |w| ==> s[p + |w| - 1 - j] == w[j]
    case Bool(b) => Number(s, p) == if !b then 0 else if ix then 1 else -1
    case Str(text) => Padded(s, p, text, Room(t, width))
  }

  /** The bytes x stand at p. */
  ghost predicate Has(s: seq<byte>, p: nat, x: seq<byte>) {
    p + |x| <= |s| && forall j :: 0 <= j < |x| ==> s[p + j] == x[j]
  }

  lemma {:induction false} NumberIs(x: int32, s: seq<byte>, p: nat)
    requires Has(s, p, BigEndian(x))
    ensures Number(s, p) == x
  {
    var u := if x < 0 then x + TWO32 else x;
    var e := BigEndian(x);
    assert s[p] == e[0] && s[p + 1] == e[1] && s[p + 2] == e[2] && s[p + 3] == e[3];
    assert u == 16777216 * (u / 256 / 256 / 256) + 65536 * (u / 256 / 256 % 256) + 256 * (u / 256 % 256) + u % 256;
  }

  lemma {:induction false} ItemLaidOut(t: EclArrType, width: nat, ix: bool, v: Item, s: seq<byte>, p: nat)
    requires Fits(t, width, v) && Has(s, p, ItemBytes(t, width, ix, v))
    ensures Room(t, width) == ElementBytes(t, width) && p + Room(t, width) <= |s|
    ensures ElementAt(s, p, t, width, ix, v)
  {
    hide Number, BigEndian;
    var e := ItemBytes(t, width, ix, v);
    match v
    case Int(i) => NumberIs(i, s, p);
    case Word(w) =>
      forall j | 0 <= j < |w| ensures s[p + |w| - 1 - j] == w[j] {
        assert s[p + (|w| - 1 - j)] == e[|w| - 1 - j];
      }
    case Str(text) =>
      StringIs(text, ElementBytes(t, width), s, p);
    case Bool(b) => LogicalIs(ix, b, s, p);
  }

  lemma {:induction false} StringIs(text: seq<byte>, w: nat, s: seq<byte>, p: nat)
    requires |text| <= w && Has(s, p, PadRight(text, w))
    ensures p + w <= |s| && Padded(s, p, text, w)
  {
    var e := PadRight(text, w);
    forall j | 0 <= j < w ensures s[p + j] == if j < |text| then text[j] else ' ' {
      assert s[p + j] == e[j];
    }
  }

  lemma {:induction false} LogicalIs(ix: bool, b: bool, s: seq<byte>, p: nat)
    requires Has(s, p, ItemBytes(LOGI, 4, ix, Bool(b)))
    ensures p + 4 <= |s| && Number(s, p) == if !b then 0 else if ix then 1 else -1
  {
    var e := ItemBytes(LOGI, 4, ix, Bool(b));
    assert s[p] == e[0] && s[p + 1] == e[1] && s[p + 2] == e[2] && s[p + 3] == e[3];
  }

  // ------------------------------------------------------------------
  // Data

  /** Where element k is, from the start of the data: behind the head of its block, and
      behind the head and the tail of every block before. */
  ghost function Place(t: EclArrType, width: nat, k: nat): nat {
    4 + Room(t, width) * k + 8 * (k / PerBlock(t))
  }

  /** Where block b starts. */
  ghost function BlockPlace(t: EclArrType, width: nat, b: nat): nat {
    (PerBlock(t) * Room(t, width) + 8) * b
  }

  /** The first element of block b. */
  ghost function First(t: EclArrType, b: nat): nat { PerBlock(t) * b }

  /** How many bytes block b of n elements holds. */
  ghost function BlockSize(t: EclArrType, width: nat, n: nat, b: nat): nat {
    if n <= First(t, b) then 0
    else if n <= First(t, b) + PerBlock(t) then Room(t, width) * (n - First(t, b))
    else Room(t, width) * PerBlock(t)
  }

  /** The data of an array from p on: every element at its place, every block between its
      size and its size. */
  ghost predicate DataAt(s: seq<byte>, p: nat, t: EclArrType, width: nat, ix: bool, items: seq<Item>)
    requires AllFit(t, width, items)
  {
    && (forall k :: 0 <= k < |items| ==> HasElement(s, p + Place(t, width, k), t, width, ix, items[k]))
    && (forall b: nat :: First(t, b) < |items| ==>
          BlockAt(s, p + BlockPlace(t, width, b), BlockSize(t, width, |items|, b)))
  }

  ghost predicate HasElement(s: seq<byte>, p: nat, t: EclArrType, width: nat, ix: bool, v: Item)
    requires Fits(t, width, v)
  {
    p + Room(t, width) <= |s| && ElementAt(s, p, t, width, ix, v)
  }

  ghost predicate BlockAt(s: seq<byte>, p: nat, size: nat) {
    p + size + 8 <= |s| && Number(s, p) == size && Number(s, p + 4 + size) == size
  }

  lemma {:induction false} Part(s: seq<byte>, p: nat, a: seq<byte>, b: seq<byte>)
    requires Has(s, p, a + b)
    ensures Has(s, p, a) && Has(s, p + |a|, b)
  {
    forall j | 0 <= j < |a| ensures s[p + j] == a[j] {
      assert (a + b)[j] == a[j];
    }
    forall j | 0 <= j < |b| ensures s[p + |a| + j] == b[j] {
      assert (a + b)[|a| + j] == b[j];
      assert s[p + (|a| + j)] == b[j];
    }
  }

  lemma {:induction false} FrameAt(s: seq<byte>, p: nat, payload: seq<byte>)
    requires |payload| <= INT_MAX && Has(s, p, Frame(payload))
    ensures BlockAt(s, p, |payload|) && Has(s, p + 4, payload)
  {
    hide Number, BigEndian, Has;
    var e := BigEndian(|payload|);
    Assoc(e, payload, e);
    Part(s, p, e, payload + e);
    Part(s, p + 4, payload, e);
    NumberIs(|payload|, s, p);
    NumberIs(|payload|, s, p + 4 + |payload|);
    Room4(s, p, e);
    Room4(s, p + 4 + |payload|, e);
  }

  lemma Room4(s: seq<byte>, p: nat, x: seq<byte>)
    requires Has(s, p, x)
    ensures p + |x| <= |s|
  {}

  lemma {:induction false} PayloadAt(t: EclArrType, width: nat, ix: bool, items: seq<Item>, k: nat)
    requires AllFit(t, width, items) && k < |items|
    ensures
      var w := ElementBytes(t, width);
      && w * k + w <= |Payload(t, width, ix, items)|
      && Payload(t, width, ix, items)[w * k..w * k + w] == ItemBytes(t, width, ix, items[k])
  {
    hide ItemBytes, ElementBytes, Fits;
    var w := ElementBytes(t, width);
    PayloadSplit(t, width, ix, items, k);
    TimesIs(k, w);
    TimesMonotone(k, |items|, w);
    var rest := Payload(t, width, ix, items[k..]);
    hide Times;
    assert rest[..w] == ItemBytes(t, width, ix, items[k]);
    hide Payload;
    Sliced(Payload(t, width, ix, items), w * k, w);
  }

  lemma Sliced(s: seq<byte>, a: nat, w: nat)
    requires a + w <= |s|
    ensures s[a..][..w] == s[a..a + w]
  {}

  lemma {:induction false} Within(s: seq<byte>, p: nat, x: seq<byte>, a: nat, w: nat)
    requires Has(s, p, x) && a + w <= |x|
    ensures Has(s, p + a, x[a..a + w])
  {
    var y := x[a..a + w];
    forall j | 0 <= j < w ensures s[(p + a) + j] == y[j] {
      assert s[p + (a + j)] == x[a + j];
    }
  }

  // One block of elements.
  lemma {:induction false} BlockLaidOut(s: seq<byte>, p: nat, t: EclArrType, width: nat, ix: bool, block: seq<Item>, k: nat)
    requires AllFit(t, width, block) && k < |block|
    requires Has(s, p, Payload(t, width, ix, block))
    ensures HasElement(s, p + Room(t, width) * k, t, width, ix, block[k])
  {
    hide ItemBytes, Payload, ElementAt, Times, Has, Fits, ElementBytes;
    assert Fits(t, width, block[k]);
    PayloadAt(t, width, ix, block, k);
    RoomIs(t, width, block[k]);
    var w := ElementBytes(t, width);
    Within(s, p, Payload(t, width, ix, block), w * k, w);
    ItemLaidOut(t, width, ix, block[k], s, p + w * k);
  }

  lemma RoomIs(t: EclArrType, width: nat, v: Item)
    requires Fits(t, width, v)
    ensures Room(t, width) == ElementBytes(t, width) && PerBlock(t) == BlockElements(t) && !t.MESS?
  {}

  // The places behind a full block are those of the rest, moved by the size of the block.
  lemma {:induction false} PlacesMove(t: EclArrType, width: nat, k: nat, b: nat, n: nat)
    ensures var full := PerBlock(t) * Room(t, width) + 8;
      && (k >= PerBlock(t) ==> Place(t, width, k) == full + Place(t, width, k - PerBlock(t)))
      && (k < PerBlock(t) ==> Place(t, width, k) == 4 + Room(t, width) * k)
      && (b >= 1 ==> BlockPlace(t, width, b) == full + BlockPlace(t, width, b - 1))
      && BlockPlace(t, width, 0) == 0
      && (b >= 1 && n >= PerBlock(t) ==> BlockSize(t, width, n, b) == BlockSize(t, width, n - PerBlock(t), b - 1))
  {
    var x := PerBlock(t);
    if k >= x {
      DivStep(k, x);
      Distribute(Room(t, width), k, x);
    } else {
      DivIs(k, x, 0, k);
    }
    if b >= 1 {
      Distribute(x * Room(t, width) + 8, b, 1);
    }
  }

  lemma FirstSize(t: EclArrType, width: nat, n: nat)
    requires n > 0
    ensures BlockSize(t, width, n, 0) == Room(t, width) * if n > PerBlock(t) then PerBlock(t) else n
  {}

  lemma ElementIn(s: seq<byte>, p: nat, t: EclArrType, width: nat, ix: bool, items: seq<Item>, k: nat)
    requires AllFit(t, width, items) && k < |items| && DataAt(s, p, t, width, ix, items)
    ensures HasElement(s, p + Place(t, width, k), t, width, ix, items[k])
  {}

  /** What a block of x elements takes. */
  ghost function BlockRoom(t: EclArrType, width: nat, x: nat): nat { Room(t, width) * x + 8 }

  lemma {:induction false} Moved(t: EclArrType, width: nat, p: nat, k: nat, b: nat, n: nat)
    ensures k >= PerBlock(t) ==>
      p + BlockRoom(t, width, PerBlock(t)) + Place(t, width, k - PerBlock(t)) == p + Place(t, width, k)
    ensures b >= 1 ==>
      p + BlockRoom(t, width, PerBlock(t)) + BlockPlace(t, width, b - 1) == p + BlockPlace(t, width, b)
    ensures b >= 1 && First(t, b) < n ==> n > PerBlock(t) && First(t, b - 1) < n - PerBlock(t)
  {
    PlacesMove(t, width, k, b, n);
    hide Place, BlockPlace, Room, BlockSize;
    assert BlockRoom(t, width, PerBlock(t)) == PerBlock(t) * Room(t, width) + 8;
  }

  lemma InBlock(t: EclArrType, width: nat, p: nat, k: nat)
    requires k < PerBlock(t)
    ensures p + Place(t, width, k) == p + 4 + Room(t, width) * k
  {
    DivIs(k, PerBlock(t), 0, k);
  }

  // The first elements are in their block, and the others in those behind it.
  lemma {:induction false} ElementAnywhere(s: seq<byte>, p: nat, t: EclArrType, width: nat, ix: bool, items: seq<Item>,
                                           x: nat, k: nat)
    requires AllFit(t, width, items) && k < |items|
    requires x == if |items| > PerBlock(t) then PerBlock(t) else |items|
    requires AllFit(t, width, items[x..]) && DataAt(s, p + BlockRoom(t, width, x), t, width, ix, items[x..])
    requires k < x ==> HasElement(s, p + Place(t, width, k), t, width, ix, items[k])
    ensures HasElement(s, p + Place(t, width, k), t, width, ix, items[k])
  {
    hide *;
    Moved(t, width, p, k, 0, 0);
    if k >= x {
      ElementIn(s, p + BlockRoom(t, width, x), t, width, ix, items[x..], k - x);
      assert items[x..][k - x] == items[k];
    }
  }

  lemma {:induction false} BlockAnywhere(s: seq<byte>, p: nat, t: EclArrType, width: nat, ix: bool, items: seq<Item>,
                                         x: nat, b: nat)
    requires AllFit(t, width, items) && First(t, b) < |items|
    requires x == if |items| > PerBlock(t) then PerBlock(t) else |items|
    requires AllFit(t, width, items[x..]) && DataAt(s, p + BlockRoom(t, width, x), t, width, ix, items[x..])
    requires BlockAt(s, p, Room(t, width) * x)
    ensures BlockAt(s, p + BlockPlace(t, width, b), BlockSize(t, width, |items|, b))
  {
    hide *;
    PlacesMove(t, width, 0, b, |items|);
    FirstSize(t, width, |items|);
    Moved(t, width, p, 0, b, |items|);
    if b > 0 {
      BlockIn(s, p + BlockRoom(t, width, x), t, width, ix, items[x..], b - 1);
    }
  }

  lemma BlockIn(s: seq<byte>, p: nat, t: EclArrType, width: nat, ix: bool, items: seq<Item>, b: nat)
    requires AllFit(t, width, items) && First(t, b) < |items| && DataAt(s, p, t, width, ix, items)
    ensures BlockAt(s, p + BlockPlace(t, width, b), BlockSize(t, width, |items|, b))
  {}

  // Blocks are laid out like this at every number of elements and for every type.
  lemma {:induction false} DataLaidOut(s: seq<byte>, p: nat, t: EclArrType, width: nat, ix: bool, items: seq<Item>)
    requires AllFit(t, width, items) && WidthOk(t, width)
    requires Has(s, p, DataBytes(t, width, ix, items))
    ensures DataAt(s, p, t, width, ix, items)
    decreases |items|
  {
    hide Fits, DataAt, HasElement, BlockAt, Room, PerBlock, First, Place, BlockPlace, BlockSize, BlockRoom, Has, DataBytes,
      Payload;
    if items == [] {
      NothingLaidOut(s, p, t, width, ix, items);
    } else {
      FirstFits(t, width, items);
      var n := |items|;
      var x := if n > PerBlock(t) then PerBlock(t) else n;
      BlockThenRest(s, p, t, width, ix, items, x);
      DataLaidOut(s, p + BlockRoom(t, width, x), t, width, ix, items[x..]);
      forall k | 0 <= k < n ensures HasElement(s, p + Place(t, width, k), t, width, ix, items[k]) {
        if k < x {
          BlockLaidOut(s, p + 4, t, width, ix, items[..x], k);
          InBlock(t, width, p, k);
        }
        ElementAnywhere(s, p, t, width, ix, items, x, k);
      }
      forall b: nat | First(t, b) < n
        ensures BlockAt(s, p + BlockPlace(t, width, b), BlockSize(t, width, n, b))
      {
        BlockAnywhere(s, p, t, width, ix, items, x, b);
      }
      AllLaidOut(s, p, t, width, ix, items);
    }
  }

  lemma FirstFits(t: EclArrType, width: nat, items: seq<Item>)
    requires AllFit(t, width, items) && items != []
    ensures Room(t, width) == ElementBytes(t, width) && PerBlock(t) == BlockElements(t) > 0
  {
    RoomIs(t, width, items[0]);
  }

  // The first block and what stands behind it.
  lemma {:induction false} BlockThenRest(s: seq<byte>, p: nat, t: EclArrType, width: nat, ix: bool, items: seq<Item>, x: nat)
    requires AllFit(t, width, items) && WidthOk(t, width) && items != []
    requires Has(s, p, DataBytes(t, width, ix, items))
    requires x == if |items| > PerBlock(t) then PerBlock(t) else |items|
    ensures AllFit(t, width, items[..x]) && AllFit(t, width, items[x..]) && x > 0
    ensures BlockAt(s, p, Room(t, width) * x) && Has(s, p + 4, Payload(t, width, ix, items[..x]))
    ensures Has(s, p + BlockRoom(t, width, x), DataBytes(t, width, ix, items[x..]))
  {
    hide *;
    FirstFits(t, width, items);
    DataSplit(t, width, ix, items);
    var payload, rest := Payload(t, width, ix, items[..x]), DataBytes(t, width, ix, items[x..]);
    FrameThenRest(s, p, payload, rest);
    TimesIs(x, ElementBytes(t, width));
    RoomOf(t, width, x);
    assert |payload| == x * Room(t, width);
  }

  lemma RoomOf(t: EclArrType, width: nat, x: nat)
    ensures x * Room(t, width) == Room(t, width) * x && BlockRoom(t, width, x) == Room(t, width) * x + 8
  {}

  lemma {:induction false} FrameThenRest(s: seq<byte>, p: nat, payload: seq<byte>, rest: seq<byte>)
    requires |payload| <= INT_MAX && Has(s, p, Frame(payload) + rest)
    ensures BlockAt(s, p, |payload|) && Has(s, p + 4, payload) && Has(s, p + (|payload| + 8), rest)
  {
    hide Frame, BlockAt, Has;
    Part(s, p, Frame(payload), rest);
    FrameAt(s, p, payload);
  }

  lemma AllLaidOut(s: seq<byte>, p: nat, t: EclArrType, width: nat, ix: bool, items: seq<Item>)
    requires AllFit(t, width, items)
    requires forall k :: 0 <= k < |items| ==> HasElement(s, p + Place(t, width, k), t, width, ix, items[k])
    requires forall b: nat :: First(t, b) < |items| ==>
      BlockAt(s, p + BlockPlace(t, width, b), BlockSize(t, width, |items|, b))
    ensures DataAt(s, p, t, width, ix, items)
  {}

  lemma NothingLaidOut(s: seq<byte>, p: nat, t: EclArrType, width: nat, ix: bool, items: seq<Item>)
    requires items == []
    ensures DataAt(s, p, t, width, ix, items)
  {}

  // What the data of an array takes, in numbers.
  lemma {:induction false} SizeInNumbers(t: EclArrType, n: int)
    requires !t.C0NN?
    ensures t.MESS? ==> SizeOnDiskBinary(n, t, 0) == if n > 0 then Err(MessWithData) else Ok(0)
    ensures !t.MESS? && n <= 0 ==> SizeOnDiskBinary(n, t, 0) == Ok(0)
    ensures (t.INTE? || t.REAL? || t.LOGI?) && n > 0 ==> SizeOnDiskBinary(n, t, 0) == Ok(4 * n + 8 * ((n + 999) / 1000))
    ensures t.DOUB? && n > 0 ==> SizeOnDiskBinary(n, t, 0) == Ok(8 * n + 8 * ((n + 999) / 1000))
    ensures t.CHAR? && n > 0 ==> SizeOnDiskBinary(n, t, 0) == Ok(8 * n + 8 * ((n + 104) / 105))
  {
    if n > 0 {
      Fours(n);
      Eights(n, 1000);
      Eights(n, 105);
    }
  }

  lemma Fours(n: nat)
    ensures n / 1000 * (4000 + 2 * 4) + (if n - n / 1000 * 1000 > 0 then (n - n / 1000 * 1000) * 4 + 2 * 4 else 0)
         == 4 * n + 8 * ((n + 999) / 1000)
  {
    Rounded(n, 1000);
  }

  lemma Eights(n: nat, k: nat)
    requires k == 1000 || k == 105
    ensures n / k * (8 * k + 2 * 4) + (if n - n / k * k > 0 then (n - n / k * k) * 8 + 2 * 4 else 0)
         == 8 * n + 8 * ((n + k - 1) / k)
  {
    Rounded(n, k);
  }

  lemma {:induction false} WideSizeInNumbers(width: nat, n: int)
    ensures n <= 0 ==> SizeOnDiskBinary(n, C0NN, width) == Ok(0)
    ensures n > 0 && width == 0 ==> SizeOnDiskBinary(n, C0NN, width) == Err(BadWidth)
    ensures n > 0 && width > 0 ==> SizeOnDiskBinary(n, C0NN, width) == Ok(width * n + 8 * ((n + 104) / 105))
  {
    if n > 0 {
      Rounded(n, 105);
      Wide(n / 105, n % 105, width);
      assert n == 105 * (n / 105) + n % 105;
    }
  }

  lemma Rounded(n: nat, k: nat)
    requires k == 1000 || k == 105
    ensures (n + k - 1) / k == n / k + (if n % k > 0 then 1 else 0) && n - n / k * k == n % k
  {}

  lemma Wide(q: nat, r: nat, width: nat)
    ensures q * (840 / 8 * width + 8) + r * width == width * (105 * q + r) + 8 * q
  {
    assert width * (105 * q + r) == width * (105 * q) + width * r;
    assert width * (105 * q) == q * (105 * width);
  }

  // ------------------------------------------------------------------
  // Headers

  /** The tag of a type. */
  ghost predicate TagOf(tag: seq<byte>, t: EclArrType, width: nat) {
    match t
    case INTE => tag == "INTE"
    case REAL => tag == "REAL"
    case DOUB => tag == "DOUB"
    case LOGI => tag == "LOGI"
    case CHAR => tag == "CHAR"
    case MESS => tag == "MESS"
    case C0NN =>
      && |tag| == 4 && tag[0] == 'C'
      && (width <= 999 ==>
            100 * (tag[1] as int - 48) + 10 * (tag[2] as int - 48) + (tag[3] as int - 48) == width
            && '0' <= tag[1] <= '9' && '0' <= tag[2] <= '9' && '0' <= tag[3] <= '9')
  }

  /** One record of 24 bytes: the number 16, a name, a count, a tag and 16 again. */
  ghost predicate RecordAt(s: seq<byte>, p: nat, name: seq<byte>, size: int, tag: seq<byte>) {
    && p + 24 <= |s| && |name| <= 8 && |tag| == 4
    && Number(s, p) == 16 && Padded(s, p + 4, name, 8) && Number(s, p + 12) == size
    && s[p + 16..p + 20] == tag && Number(s, p + 20) == 16
  }

  /** The header of an array: one record, or one of type X231 before it that holds how
      often 2^31 is in the count, with a minus. */
  ghost predicate HeaderAt(s: seq<byte>, p: nat, name: seq<byte>, count: nat, t: EclArrType, width: nat) {
    exists tag: seq<byte> :: TagOf(tag, t, width) &&
      if count <= 2147483647 then RecordAt(s, p, name, count, tag)
      else RecordAt(s, p, name, -(count / 2147483648), "X231") && RecordAt(s, p + 24, name, count % 2147483648, tag)
  }

  lemma {:induction false} RecordLaidOut(s: seq<byte>, p: nat, name: seq<byte>, size: int32, tag: seq<byte>)
    requires |name| <= 8 && |tag| == 4 && Has(s, p, Record(PadRight(name, 8), size, tag))
    ensures RecordAt(s, p, name, size, tag)
  {
    hide Number, BigEndian, Has, PadRight;
    var padded, e, n := PadRight(name, 8), BigEndian(16), BigEndian(size);
    Part(s, p, e, padded + (n + (tag + e)));
    Part(s, p + 4, padded, n + (tag + e));
    Part(s, p + 12, n, tag + e);
    Part(s, p + 16, tag, e);
    NumberIs(16, s, p);
    NumberIs(size, s, p + 12);
    NumberIs(16, s, p + 20);
    StringIs(name, 8, s, p + 4);
    Room4(s, p + 20, e);
    TextIs(s, p + 16, tag);
  }

  lemma TextIs(s: seq<byte>, p: nat, x: seq<byte>)
    requires Has(s, p, x)
    ensures p + |x| <= |s| && s[p..p + |x|] == x
  {}

  lemma {:induction false} TagIs(t: EclArrType, width: nat)
    ensures TagOf(TypeTag(t, width), t, width)
  {
    if t.C0NN? {
      C0nnTag(width);
      hide TypeTag;
      var tag := TypeTag(t, width);
      ThreeDigits(tag[1..4]);
    }
  }

  lemma {:induction false} ThreeDigits(d: seq<byte>)
    requires |d| == 3 && AllDigits(d)
    ensures DigitsValue(d) == 100 * (d[0] as int - 48) + 10 * (d[1] as int - 48) + (d[2] as int - 48)
  {
    assert d[..2][..1] == d[..1] && d[..1][..0] == [];
    assert DigitsValue(d[..1]) == DigitValue(d[0]);
    assert DigitsValue(d[..2]) == 10 * DigitsValue(d[..1]) + DigitValue(d[1]);
  }

  lemma {:induction false} HeaderLaidOut(s: seq<byte>, p: nat, name: seq<byte>, count: nat, t: EclArrType, width: nat)
    requires |name| <= 8 && count < MAX_COUNT && Has(s, p, HeaderBytes(name, count, t, width))
    ensures HeaderAt(s, p, name, count, t, width)
  {
    hide Has, TypeTag, TagOf, RecordAt, PadRight, Record;
    var padded, tag := PadRight(name, 8), TypeTag(t, width);
    TagIs(t, width);
    if count > INT_MAX {
      Part(s, p, Record(padded, -(count / TWO31), "X231"), Record(padded, count % TWO31, tag));
      RecordLaidOut(s, p, name, -(count / TWO31), "X231");
      RecordLaidOut(s, p + 24, name, count % TWO31, tag);
    } else {
      assert [] + Record(padded, count, tag) == Record(padded, count, tag);
      RecordLaidOut(s, p, name, count, tag);
    }
  }

  // ------------------------------------------------------------------
  // Arrays

  /** A whole array from p on. */
  ghost predicate ArrayAt(s: seq<byte>, p: nat, ix: bool, a: Arr)
    requires AllFit(a.typ, a.width, a.items)
  {
    && HeaderAt(s, p, a.name, |a.items|, a.typ, a.width)
    && DataAt(s, p + if |a.items| <= 2147483647 then 24 else 48, a.typ, a.width, ix, a.items)
  }

  lemma {:induction false} ArrayLaidOut(s: seq<byte>, p: nat, ix: bool, a: Arr)
    requires Shaped(a) && |a.name| <= 8 && Has(s, p, EncodeArr(ix, a))
    ensures ArrayAt(s, p, ix, a)
  {
    hide Has, HeaderBytes, DataBytes, HeaderAt, DataAt, AllFit;
    var h, d := HeaderBytes(a.name, |a.items|, a.typ, a.width), DataBytes(a.typ, a.width, ix, a.items);
    Part(s, p, h, d);
    HeaderLaidOut(s, p, a.name, |a.items|, a.typ, a.width);
    DataLaidOut(s, p + |h|, a.typ, a.width, ix, a.items);
  }

  lemma Appended(before: seq<byte>, x: seq<byte>)
    ensures Has(before + x, |before|, x)
  {}
}
