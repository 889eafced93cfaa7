// Headers of unformatted arrays, including the pair of X231 headers for element
// counts an int cannot hold.

module EclHeader {
  import opened Bytes
  import opened Arith
  import opened Text
  import opened EclData
  import opened BinaryFormat

  // ------------------------------------------------------------------
  // Type tags

  /** The four chars that name a type; C0NN shows the element width. */
  function TypeTag(t: EclArrType, width: nat): (tag: seq<byte>)
    ensures |tag| == 4
  {
    match t
    case INTE => "INTE"
    case REAL => "REAL"
    case DOUB => "DOUB"
    case LOGI => "LOGI"
    case CHAR => "CHAR"
    case C0NN => (['C'] + PadLeft(Decimal(width), 3, '0'))[..4]
    case MESS => "MESS"
  }

  /** A type and the element size that goes with it. */
  datatype Typed = Typed(typ: EclArrType, elementSize: int)

  function ParseTag(tag: seq<byte>): Result<Typed>
    requires |tag| == 4
  {
    if tag == "INTE" then Ok(Typed(INTE, 4))
    else if tag == "REAL" then Ok(Typed(REAL, 4))
    else if tag == "DOUB" then Ok(Typed(DOUB, 8))
    else if tag == "CHAR" then Ok(Typed(CHAR, 8))
    else if tag[0] == 'C' then
      var n := Stoi(tag[1..4]);
      if n.None? then Err(BadNumber) else Ok(Typed(C0NN, n.value))
    else if tag == "LOGI" then Ok(Typed(LOGI, 4))
    else if tag == "MESS" then Ok(Typed(MESS, 4))
    else Err(UnknownType)
  }

  /** The element size a reader assigns to a type. */
  function ElementSize(t: EclArrType, width: nat): nat {
    if t.C0NN? then width else if t.DOUB? || t.CHAR? then 8 else 4
  }

  lemma {:induction false} C0nnTag(width: nat)
    ensures var tag := TypeTag(C0NN, width);
      && tag[0] == 'C' && AllDigits(tag[1..4])
      && (DigitsValue(tag[1..4]) == width <==> width <= 999)
  {
    var d := Decimal(width);
    DecimalLength(width, 3);
    assert Pow10(3) == 1000;
    DigitsOfDecimal(width);
    var tag := TypeTag(C0NN, width);
    if |d| <= 3 {
      LeadingZeros(3 - |d|, d);
      assert tag[1..4] == seq(3 - |d|, _ => '0') + d;
    } else {
      assert tag[1..4] == d[..3];
      DigitsBound(tag[1..4]);
    }
  }

  // The tag written for a type reads back as the type, and the width of C0NN
  // elements survives exactly when three digits can show it.
  lemma {:induction false} TagRoundTrip(t: EclArrType, width: nat)
    ensures ParseTag(TypeTag(t, width)) == Ok(Typed(t, ElementSize(t, width))) <==> (t.C0NN? ==> width <= 999)
  {
    if t.C0NN? {
      C0nnTag(width);
      hide PadLeft, Decimal, DigitsValue;
      var tag := TypeTag(t, width);
      StoiOfDigits(tag[1..4], []);
      assert tag[1..4] + [] == tag[1..4];
      assert IsDigit(tag[1..4][0]);
      assert tag[1] == tag[1..4][0] && tag[1] != 'H';
    }
  }

  // No tag announces a width of more than three digits.
  lemma {:induction false} ParsedWidth(tag: seq<byte>)
    requires |tag| == 4
    ensures var p := ParseTag(tag); p.Ok? && p.value.typ.C0NN? ==> p.value.elementSize <= 999
  {
    SmallStoi(tag[1..4]);
    hide Stoi;
  }

  lemma {:induction false} SmallStoi(s: seq<byte>)
    requires |s| <= 3
    ensures Stoi(s).Some? ==> Stoi(s).value <= 999
  {
    var t := SkipSpace(s);
    var run := DigitRun(if t != [] && (t[0] == '-' || t[0] == '+') then t[1..] else t);
    SkipSpaceShortens(s);
    DigitsBound(run);
    SmallPow(|run|);
  }

  lemma SmallPow(k: nat)
    requires k <= 3
    ensures Pow10(k) <= 1000
  {}

  lemma {:induction false} SkipSpaceShortens(s: seq<byte>)
    ensures |SkipSpace(s)| <= |s|
  {
    if s != [] { SkipSpaceShortens(s[1..]); }
  }

  // ------------------------------------------------------------------
  // Element counts beyond an int: the sum is formed in double precision

  const TWO53: int := 0x20_0000_0000_0000

  /** Distance between neighbouring doubles at n. */
  function Ulp(n: nat): (u: nat)
    ensures u >= 1
    ensures n < TWO53 ==> u == 1
  {
    if n < TWO53 then 1 else 2 * Ulp(n / 2)
  }

  /** The double nearest to n, ties to even. */
  function NearestDouble(n: nat): int {
    var u := Ulp(n);
    var q, r := n / u, n % u;
    if 2 * r < u || (2 * r == u && q % 2 == 0) then q * u else (q + 1) * u
  }

  lemma {:induction false} DoubleIsExact(n: nat)
    ensures NearestDouble(n) == n <==> n % Ulp(n) == 0
    ensures n < TWO53 ==> NearestDouble(n) == n
  {
    var u := Ulp(n);
    hide Ulp;
    var q, r := n / u, n % u;
    assert n == u * q + r;
    assert (q + 1) * u == q * u + u;
  }

  /** size = lo + hi * pow(2, 31), converted back to an integer. */
  function CombinedSize(lo: int32, hi: nat): int {
    var n := lo + hi * TWO31;
    if n >= 0 then NearestDouble(n) else -NearestDouble(-n)
  }

  ghost function Pow2(k: nat): (p: nat)
    ensures p >= 1
  {
    if k == 0 then 1 else 2 * Pow2(k - 1)
  }

  lemma Pow2Of53()
    ensures Pow2(53) == TWO53
  {
    assert Pow2(10) == 1024;
    assert Pow2(20) == 1048576;
    assert Pow2(30) == 1073741824;
    assert Pow2(40) == 1099511627776;
    assert Pow2(50) == 1125899906842624;
  }

  // Doubles of 53 + k bits are 2^k apart.
  lemma {:induction false} UlpIs(n: nat, k: nat)
    requires Pow2(52 + k) <= n < Pow2(53 + k) || (k == 0 && n < TWO53)
    ensures Ulp(n) == Pow2(k)
  {
    Pow2Of53();
    hide Ulp;
    if k > 0 {
      Larger(52 + k, 53);
      UlpIs(n / 2, k - 1);
      UlpHalves(n);
    } else {
      UlpSmall(n);
    }
  }

  lemma {:induction false} Larger(a: nat, b: nat)
    requires a >= b
    ensures Pow2(a) >= Pow2(b) > 0
  {
    if a > b { Larger(a - 1, b); }
  }

  lemma UlpHalves(n: nat)
    requires n >= TWO53
    ensures Ulp(n) == 2 * Ulp(n / 2)
  {}

  lemma UlpSmall(n: nat)
    ensures n < TWO53 ==> Ulp(n) == 1
  {}

  // A count is rounded to a multiple of the spacing of doubles, by no more than half of it,
  // and between two of them to the even one.
  lemma {:induction false} NearestIs(n: nat)
    ensures var u, r := Ulp(n), NearestDouble(n);
      && r % u == 0 && 2 * (r - n) <= u && 2 * (n - r) <= u
      && (2 * (r - n) == u || 2 * (n - r) == u ==> r / u % 2 == 0)
  {
    var u := Ulp(n);
    hide Ulp;
    var q := n / u;
    Multiple(q, u);
    Multiple(q + 1, u);
    assert n == u * q + n % u;
    assert (q + 1) * u == q * u + u;
  }

  lemma {:induction false} Multiple(q: nat, u: nat)
    requires u > 0
    ensures q * u % u == 0 && q * u / u == q
  {
    DivIs(q * u, u, q, 0);
  }

  // Both parts of a count are added, whatever their sign, as long as a double holds them.
  lemma {:induction false} CombinedIs(lo: int32, hi: nat)
    ensures -TWO53 < lo + hi * 2147483648 < TWO53 ==> CombinedSize(lo, hi) == lo + hi * 2147483648
  {
    var n := lo + hi * 2147483648;
    hide NearestDouble;
    DoubleIsExact(if n >= 0 then n else -n);
  }

  // ------------------------------------------------------------------
  // Header records

  const HEADER_SIZE := 24

  function Record(name: seq<byte>, size: int32, tag: seq<byte>): (s: seq<byte>)
    requires |name| == 8 && |tag| == 4
    ensures |s| == HEADER_SIZE
  {
    BigEndian(16) + (name + (BigEndian(size) + (tag + BigEndian(16))))
  }

  const MAX_COUNT: nat := 0x4000_0000_0000_0000

  /** writeBinaryHeader: two records when an int cannot hold the count. */
  function HeaderBytes(name: seq<byte>, size: nat, t: EclArrType, width: nat): (s: seq<byte>)
    requires |name| <= 8 && size < MAX_COUNT
    ensures |s| == if size > INT_MAX then 2 * HEADER_SIZE else HEADER_SIZE
  {
    var padded := PadRight(name, 8);
    (if size > INT_MAX then Record(padded, -(size / TWO31), "X231") else [])
    + Record(padded, size % TWO31, TypeTag(t, width))
  }

  datatype RawHeader = RawHeader(name: seq<byte>, size: int32, tag: seq<byte>)

  /** One 24-byte record. */
  function ReadRecord(s: seq<byte>): (r: Result<RawHeader>)
    ensures r.Ok? ==> |s| >= HEADER_SIZE && |r.value.name| == 8 && |r.value.tag| == 4
  {
    var head :- ReadInt(s);
    if head != 16 then Err(HeaderSize)
    else if |s| < HEADER_SIZE then Err(ShortRead)
    else
      var size :- ReadInt(s[12..]);
      var tail :- ReadInt(s[20..]);
      if tail != 16 then Err(HeaderSize)
      else Ok(RawHeader(s[4..12], size, s[16..20]))
  }

  lemma {:induction false} ReadWrittenRecord(name: seq<byte>, size: int32, tag: seq<byte>, rest: seq<byte>)
    requires |name| == 8 && |tag| == 4
    ensures ReadRecord(Record(name, size, tag) + rest) == Ok(RawHeader(name, size, tag))
    ensures (Record(name, size, tag) + rest)[HEADER_SIZE..] == rest
  {
    hide BigEndian, ReadInt;
    var e := BigEndian(16);
    var n := BigEndian(size);
    var s := Record(name, size, tag) + rest;
    ReadIntWritten(16, rest);
    ReadIntWritten(size, tag + e + rest);
    ReadIntWritten(16, name + n + tag + e + rest);
    assert s == e + (name + n + tag + e + rest);
    assert s[4..12] == name;
    assert s[12..] == n + (tag + e + rest);
    assert s[16..20] == tag;
    assert s[20..] == e + rest;
  }

  /** A header and how many bytes it took. */
  datatype Header = Header(name: seq<byte>, size: int, typ: EclArrType, elementSize: int, length: nat)

  /** readBinaryHeader. */
  function ReadHeader(s: seq<byte>): (r: Result<Header>)
    ensures r.Ok? ==> HEADER_SIZE <= r.value.length <= |s| && |r.value.name| == 8
    ensures r.Ok? && r.value.typ.C0NN? ==> r.value.elementSize <= 999
  {
    var first :- ReadRecord(s);
    ParsedWidth(first.tag);
    if first.tag == "X231" then
      var hi := Wrap32(first.size * -1);
      var second :- ReadRecord(s[HEADER_SIZE..]);
      if first.name != second.name || hi < 0 then Err(HeaderX231)
      else
        ParsedWidth(second.tag);
        var typed :- ParseTag(second.tag);
        Ok(Header(second.name, CombinedSize(second.size, hi), typed.typ, typed.elementSize, 2 * HEADER_SIZE))
    else
      var typed :- ParseTag(first.tag);
      Ok(Header(first.name, first.size, typed.typ, typed.elementSize, HEADER_SIZE))
  }

  // A header reads back with its padded name, type and element size, and with
  // its count rounded to a double.
  lemma {:induction false} HeaderRoundTrip(name: seq<byte>, size: nat, t: EclArrType, width: nat, rest: seq<byte>)
    requires |name| <= 8 && size < MAX_COUNT && (t.C0NN? ==> width <= 999)
    ensures var h := HeaderBytes(name, size, t, width);
      && ReadHeader(h + rest)
         == Ok(Header(PadRight(name, 8), NearestDouble(size), t, ElementSize(t, width), |h|))
      && (h + rest)[|h|..] == rest
  {
    hide BigEndian, Record, ReadRecord, ParseTag, NearestDouble, PadRight;
    var padded := PadRight(name, 8);
    var tag := TypeTag(t, width);
    var low := Record(padded, size % TWO31, tag);
    TagRoundTrip(t, width);
    ReadWrittenRecord(padded, size % TWO31, tag, rest);
    TagIsNotX231(t, width);
    DoubleIsExact(size);
    if size > INT_MAX {
      var high := Record(padded, -(size / TWO31), "X231");
      ReadWrittenRecord(padded, -(size / TWO31), "X231", low + rest);
      Assoc(high, low, rest);
      SplitAt(high + low, rest);
    } else {
      assert [] + low == low;
    }
  }

  lemma {:induction false} TagIsNotX231(t: EclArrType, width: nat)
    ensures TypeTag(t, width) != "X231"
  {
    assert TypeTag(t, width)[0] != 'X';
  }

  // The element count itself survives exactly when it is a double.
  lemma {:induction false} CountRoundTrip(name: seq<byte>, size: nat, t: EclArrType, width: nat, rest: seq<byte>)
    requires |name| <= 8 && size < MAX_COUNT && (t.C0NN? ==> width <= 999)
    ensures var h := ReadHeader(HeaderBytes(name, size, t, width) + rest);
      h.Ok? && (h.value.size == size <==> size % Ulp(size) == 0)
  {
    HeaderRoundTrip(name, size, t, width, rest);
    hide ReadHeader, HeaderBytes, NearestDouble, Ulp;
    DoubleIsExact(size);
  }
}
