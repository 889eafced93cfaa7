// Array types, block sizes and the byte images of single elements
// (ecliodata.hh and the flipEndian family of eclutil.cc).

module EclData {
  import opened Bytes
  import opened Text

  type int32 = x: int | -0x8000_0000 <= x < 0x8000_0000

  const INT_MAX: int := 0x7FFF_FFFF
  const TWO31: int := 0x8000_0000
  const TWO32: int := 0x1_0000_0000

  /** A value converted to a 32-bit int: two's complement wrap-around. */
  function Wrap32(x: int): (r: int32)
    ensures -TWO31 <= x < TWO31 ==> r == x
    ensures x >= 0 ==> r <= x
  {
    var m := x % TWO32;
    if m >= TWO31 then m - TWO32 else m
  }

  /** An int converted to a std::size_t. */
  function Unsigned(x: int32): (r: nat)
    ensures 0 <= x ==> r == x
    ensures x < 0 ==> r > INT_MAX
  {
    if x < 0 then x + TWO32 * TWO32 else x
  }

  /** Division of C++: towards zero. */
  function TruncDiv(a: int, b: int): int
    requires b > 0
  {
    if a >= 0 then a / b else -((-a) / b)
  }

  // The quotient is the largest that fits, and has the sign of the dividend.
  lemma {:induction false} TruncDivIs(a: int, b: int)
    requires b > 0
    ensures var q := TruncDiv(a, b);
      if a >= 0 then 0 <= b * q <= a < b * q + b else b * q - b < a <= b * q <= 0
  {
    var n: nat := if a >= 0 then a else -a;
    Quotient(n, b);
    assert b * -(n / b) == -(b * (n / b));
  }

  lemma Quotient(n: nat, b: nat)
    requires b > 0
    ensures 0 <= b * (n / b) <= n < b * (n / b) + b
  {
    hide *;
    assert n == b * (n / b) + n % b;
  }

  // ------------------------------------------------------------------
  // Native (little endian) words and their reversal

  /** The value of one byte. */
  function Octet(c: byte): (v: nat)
    ensures v < 256
  {
    c as int % 256
  }

  function NativeBytes(x: int32): (s: seq<byte>)
    ensures |s| == 4
  {
    var u := if x < 0 then x + TWO32 else x;
    var u1 := u / 256;
    var u2 := u1 / 256;
    var u3 := u2 / 256;
    [(u % 256) as char, (u1 % 256) as char, (u2 % 256) as char, u3 as char]
  }

  function FromOctets(a: nat, b: nat, c: nat, d: nat): (x: int32)
    requires a < 256 && b < 256 && c < 256 && d < 256
  {
    var u := a + 256 * (b + 256 * (c + 256 * d));
    if u >= TWO31 then u - TWO32 else u
  }

  function FromNative(s: seq<byte>): (x: int32)
    requires |s| == 4
  {
    FromOctets(Octet(s[0]), Octet(s[1]), Octet(s[2]), Octet(s[3]))
  }

  lemma NativeRoundTrip(x: int32)
    ensures FromNative(NativeBytes(x)) == x
  {}

  lemma {:induction false} OctetsRoundTrip(a: nat, b: nat, c: nat, d: nat)
    requires a < 256 && b < 256 && c < 256 && d < 256
    ensures NativeBytes(FromOctets(a, b, c, d)) == [a as char, b as char, c as char, d as char]
  {
    var x := FromOctets(a, b, c, d);
    var u := if x < 0 then x + TWO32 else x;
    assert u == a + 256 * (b + 256 * (c + 256 * d));
    assert u / 256 == b + 256 * (c + 256 * d);
    assert u / 256 / 256 == c + 256 * d;
    assert u / 256 / 256 / 256 == d;
  }

  /** std::reverse over the bytes of a word. */
  function Reversed(s: seq<byte>): (r: seq<byte>)
    ensures |r| == |s|
    ensures forall i :: 0 <= i < |s| ==> r[i] == s[|s| - 1 - i]
  {
    seq(|s|, i requires 0 <= i < |s| => s[|s| - 1 - i])
  }

  lemma ReversedTwice(s: seq<byte>)
    ensures Reversed(Reversed(s)) == s
  {}

  /** __builtin_bswap32. */
  function FlipEndianInt(x: int32): int32 {
    FromNative(Reversed(NativeBytes(x)))
  }

  /** The four bytes the file holds for x, most significant first. */
  function BigEndian(x: int32): (s: seq<byte>)
    ensures |s| == 4
  {
    Reversed(NativeBytes(x))
  }

  function BigEndianValue(s: seq<byte>): int32
    requires |s| == 4
  {
    FromNative(Reversed(s))
  }

  // Flipping and writing the native word puts the big-endian bytes in the file.
  lemma {:induction false} FlipWrites(x: int32)
    ensures NativeBytes(FlipEndianInt(x)) == BigEndian(x)
  {
    var s := NativeBytes(x);
    hide NativeBytes, FromOctets;
    NativeOctets(x);
    OctetsRoundTrip(s[3] as int, s[2] as int, s[1] as int, s[0] as int);
  }

  lemma NativeOctets(x: int32)
    ensures forall i :: 0 <= i < 4 ==> NativeBytes(x)[i] as int < 256
  {}

  // Reading a native word and flipping it gives the number of its big-endian bytes.
  lemma {:induction false} FlipReads(s: seq<byte>)
    requires |s| == 4
    ensures FlipEndianInt(FromNative(s)) == BigEndianValue(s)
  {
    hide NativeBytes, FromOctets;
    OctetsRoundTrip(Octet(s[0]), Octet(s[1]), Octet(s[2]), Octet(s[3]));
  }

  // Flipping twice changes nothing: what is written flipped and read flipped is the number.
  lemma {:induction false} FlipTwice(x: int32)
    ensures FlipEndianInt(FlipEndianInt(x)) == x
    ensures FlipEndianInt(FromNative(NativeBytes(FlipEndianInt(x)))) == x
  {
    hide FlipEndianInt, NativeBytes, FromNative;
    FlipWrites(x);
    NativeRoundTrip(FlipEndianInt(x));
    FlipReads(BigEndian(x));
    BigEndianRoundTrip(x);
  }

  lemma {:induction false} BigEndianRoundTrip(x: int32)
    ensures BigEndianValue(BigEndian(x)) == x
  {
    ReversedTwice(NativeBytes(x));
    NativeRoundTrip(x);
  }

  // ------------------------------------------------------------------
  // Types and elements

  datatype EclArrType = INTE | REAL | DOUB | CHAR | LOGI | MESS | C0NN

  /** An element of an array: a 32-bit int, the native bytes of a float or
      double, a bool or a string. */
  datatype Item = Int(i: int32) | Word(w: seq<byte>) | Bool(b: bool) | Str(s: seq<byte>)

  /** block_size_data_binary with the C0NN adjustment its callers make:
      bytes of one element. */
  function ElementBytes(t: EclArrType, width: nat): nat {
    match t
    case INTE => 4
    case REAL => 4
    case DOUB => 8
    case LOGI => 4
    case CHAR => 8
    case C0NN => width
    case MESS => 1
  }

  /** block_size_data_binary with the C0NN adjustment its callers make:
      bytes of a full block. */
  function MaxBlock(t: EclArrType, width: nat): nat {
    match t
    case INTE => 4000
    case REAL => 4000
    case DOUB => 8000
    case LOGI => 4000
    case CHAR => 840
    case C0NN => 840 / 8 * width
    case MESS => 1
  }

  /** Elements in a full block: the block size over the element size. */
  function BlockElements(t: EclArrType): (n: nat)
    ensures n >= 1
  {
    match t
    case INTE => 1000
    case REAL => 1000
    case DOUB => 1000
    case LOGI => 1000
    case CHAR => 105
    case C0NN => 105
    case MESS => 1
  }

  /** Which elements an array of the type can hold. */
  predicate Fits(t: EclArrType, width: nat, v: Item) {
    match t
    case INTE => v.Int?
    case REAL => v.Word? && |v.w| == 4
    case DOUB => v.Word? && |v.w| == 8
    case LOGI => v.Bool?
    case CHAR => v.Str? && |v.s| <= 8
    case C0NN => v.Str? && |v.s| <= width
    case MESS => false
  }

  predicate AllFit(t: EclArrType, width: nat, items: seq<Item>) {
    forall i :: 0 <= i < |items| ==> Fits(t, width, items[i])
  }

  const TRUE_ECL: seq<byte> := [255 as char, 255 as char, 255 as char, 255 as char]
  const TRUE_IX: seq<byte> := [0 as char, 0 as char, 0 as char, 1 as char]
  const FALSE_WORD: seq<byte> := [0 as char, 0 as char, 0 as char, 0 as char]

  /** The bytes written for one element. */
  function ItemBytes(t: EclArrType, width: nat, ix: bool, v: Item): (s: seq<byte>)
    requires Fits(t, width, v)
    ensures |s| == ElementBytes(t, width)
  {
    match v
    case Int(i) => BigEndian(i)
    case Word(w) => Reversed(w)
    case Bool(b) => if !b then FALSE_WORD else if ix then TRUE_IX else TRUE_ECL
    case Str(s) => PadRight(s, ElementBytes(t, width))
  }

  /** What the reader makes of the bytes of one element. */
  function ItemValue(t: EclArrType, s: seq<byte>): Result<Item>
    requires t.INTE? ==> |s| == 4
  {
    match t
    case INTE => Ok(Int(BigEndianValue(s)))
    case REAL => Ok(Word(Reversed(s)))
    case DOUB => Ok(Word(Reversed(s)))
    case LOGI =>
      if s == TRUE_ECL || s == TRUE_IX then Ok(Bool(true))
      else if s == FALSE_WORD then Ok(Bool(false))
      else Err(BadLogical)
    case CHAR => Ok(Str(Trim(s)))
    case C0NN => Ok(Str(Trim(s)))
    case MESS => Err(WrongType)
  }

  /** An element as it comes back: strings lose their trailing blanks. */
  function Canonical(v: Item): Item {
    if v.Str? then Str(Trim(v.s)) else v
  }

  lemma {:induction false} ItemRoundTrip(t: EclArrType, width: nat, ix: bool, v: Item)
    requires Fits(t, width, v)
    ensures ItemValue(t, ItemBytes(t, width, ix, v)) == Ok(Canonical(v))
  {
    hide NativeBytes;
    match v
    case Int(i) => BigEndianRoundTrip(i);
    case Word(w) => ReversedTwice(w);
    case Bool(b) =>
      assert TRUE_ECL[0] != TRUE_IX[0] && TRUE_ECL[0] != FALSE_WORD[0] && TRUE_IX[3] != FALSE_WORD[3];
    case Str(s) => TrimPadRight(s, ElementBytes(t, width));
  }
}
