// Byte strings and the small text conversions every reader and writer shares:
// blank padding, blank trimming, decimal rendering and std::stoi.

module Text {
  import opened Bytes

  /** Outcome of an operation that throws in the source. */
  datatype Result<+T> = Ok(value: T) | Err(error: Error) {
    predicate IsFailure() { Err? }
    function PropagateFailure<U>(): Result<U>
      requires Err?
    {
      Err(error)
    }
    function Extract(): T
      requires Ok?
    {
      value
    }
  }

  datatype Option<+T> = None | Some(value: T)

  datatype Error =
    | LengthError         // std::length_error from a negative padding length
    | HeaderSize          // a header record that is not 16 bytes long
    | HeaderX231          // an inconsistent pair of X231 headers
    | UnknownType         // an array type tag that is not one of the seven
    | BadNumber           // std::stoi on text without a number
    | MessWithData        // type MESS announcing elements
    | BadWidth            // a C0nn tag announcing a width below one
    | ShortRead           // the file ends inside a record
    | BlockHead           // a block head outside 0 .. maximum block size
    | BlockCount          // block sizes that do not add up to the array size
    | BlockTail           // a block tail that differs from its head
    | BadLogical          // a logical word that is neither true nor false
    | BadTokens           // formatted text that does not hold the announced elements
    | WrongType           // asking for an array as another type
    | OutOfRange          // std::out_of_range from a lookup that misses
    | NotFound            // an unknown array, report step or summary key
    | NotUnified          // a restart file without SEQNUM
    | BadLodFile          // a LODSMRY file that does not match its summary
    | UnknownArray        // an array that does not belong in a summary data file
    | NotMinistep         // a summary data file whose arrays are out of order
    | StringTooLong       // an element longer than the announced element size
    | BadIndex            // a cell index outside the grid

  // ------------------------------------------------------------------
  // Blank padding and trimming

  function Blanks(n: nat): (s: seq<byte>)
    ensures |s| == n
    ensures forall i :: 0 <= i < n ==> s[i] == ' '
  {
    seq(n, _ => ' ')
  }

  /** str + std::string(width - str.size(), ' ') for a string that fits. */
  function PadRight(s: seq<byte>, width: nat): (r: seq<byte>)
    requires |s| <= width
    ensures |r| == width
  {
    s + Blanks(width - |s|)
  }

  /** std::setw(width) << str: right adjusted, never cut. */
  function PadLeft(s: seq<byte>, width: nat, fill: byte): (r: seq<byte>)
    ensures |r| == if |s| < width then width else |s|
  {
    if |s| < width then seq(width - |s|, _ => fill) + s else s
  }

  /** The string without its trailing blanks. */
  function Trim(s: seq<byte>): (r: seq<byte>)
    ensures |r| <= |s| && r == s[..|r|]
    ensures forall i :: |r| <= i < |s| ==> s[i] == ' '
    ensures r != [] ==> r[|r| - 1] != ' '
  {
    if s == [] then [] else if s[|s| - 1] == ' ' then Trim(s[..|s| - 1]) else s
  }

  // Trim is the only prefix whose removed part is blank and whose last char is not.
  lemma {:induction false} TrimIsUnique(s: seq<byte>, r: seq<byte>)
    requires |r| <= |s| && r == s[..|r|]
    requires forall i :: |r| <= i < |s| ==> s[i] == ' '
    requires r != [] ==> r[|r| - 1] != ' '
    ensures Trim(s) == r
  {
    if |Trim(s)| < |r| {
      assert false;
    }
  }

  // Padding adds only what trimming takes away.
  lemma {:induction false} TrimPadRight(s: seq<byte>, width: nat)
    requires |s| <= width
    ensures Trim(PadRight(s, width)) == Trim(s)
  {
    var r := Trim(s);
    assert PadRight(s, width)[..|r|] == s[..|r|];
    TrimIsUnique(PadRight(s, width), r);
  }

  /** trimr: find_last_not_of(" ") with the special case of eight blanks. */
  method Trimr(s: seq<byte>) returns (r: seq<byte>)
    ensures r == Trim(s)
  {
    if s == "        " {
      r := [];
      TrimIsUnique(s, []);
    } else {
      var p := |s| - 1;
      while p >= 0 && s[p] == ' '
        invariant -1 <= p < |s|
        invariant forall i :: p < i < |s| ==> s[i] == ' '
      {
        p := p - 1;
      }
      r := s[0..p + 1];
      TrimIsUnique(s, r);
    }
  }

  // ------------------------------------------------------------------
  // Decimal rendering

  function DigitChar(d: nat): (c: byte)
    requires d < 10
    ensures IsDigit(c) && DigitValue(c) == d
  {
    (d + 48) as char
  }

  function DigitValue(c: byte): (d: nat)
    requires IsDigit(c)
    ensures d < 10
  {
    c as int - 48
  }

  predicate AllDigits(s: seq<byte>) { forall i :: 0 <= i < |s| ==> IsDigit(s[i]) }

  /** std::to_string of a non-negative number. */
  function Decimal(n: nat): (s: seq<byte>)
    ensures 1 <= |s| && AllDigits(s)
    ensures s[0] == '0' ==> n == 0
  {
    if n < 10 then [DigitChar(n)] else Decimal(n / 10) + [DigitChar(n % 10)]
  }

  /** std::to_string. */
  function ToString(n: int): (s: seq<byte>)
    ensures 1 <= |s|
  {
    if n < 0 then ['-'] + Decimal(-n) else Decimal(n)
  }

  function DigitsValue(s: seq<byte>): (n: nat)
    requires AllDigits(s)
  {
    if s == [] then 0 else 10 * DigitsValue(s[..|s| - 1]) + DigitValue(s[|s| - 1])
  }

  lemma {:induction false} DigitsOfDecimal(n: nat)
    ensures DigitsValue(Decimal(n)) == n
  {
    if n < 10 {
      assert Decimal(n)[..0] == [];
    } else {
      DigitsOfDecimal(n / 10);
      assert Decimal(n)[..|Decimal(n)| - 1] == Decimal(n / 10);
    }
  }

  lemma {:induction false} LeadingZeros(k: nat, s: seq<byte>)
    requires AllDigits(s)
    ensures AllDigits(seq(k, _ => '0') + s)
    ensures DigitsValue(seq(k, _ => '0') + s) == DigitsValue(s)
    decreases k + |s|
  {
    var z: seq<byte> := seq(k, _ => '0');
    if s != [] {
      LeadingZeros(k, s[..|s| - 1]);
      assert (z + s)[..|z + s| - 1] == z + s[..|s| - 1];
    } else if k > 0 {
      LeadingZeros(k - 1, s);
      assert (z + s)[..k - 1] == seq(k - 1, _ => '0') + s;
    }
  }

  lemma {:induction false} DigitsBound(s: seq<byte>)
    requires AllDigits(s)
    ensures DigitsValue(s) < Pow10(|s|)
  {
    if s != [] { DigitsBound(s[..|s| - 1]); }
  }

  function Pow10(k: nat): (p: nat)
    ensures p >= 1
  {
    if k == 0 then 1 else 10 * Pow10(k - 1)
  }

  lemma {:induction false} DecimalLength(n: nat, k: nat)
    requires k >= 1
    ensures |Decimal(n)| <= k <==> n < Pow10(k)
  {
    if k == 1 {
      assert Pow10(1) == 10;
    } else if n < 10 {
      assert n < 10 * Pow10(k - 1);
    } else {
      DecimalLength(n / 10, k - 1);
      assert n / 10 < Pow10(k - 1) <==> n < 10 * Pow10(k - 1);
    }
  }

  // ------------------------------------------------------------------
  // std::stoi / std::stol: blanks, a sign, then as many digits as there are

  predicate IsSpace(c: byte) { c == ' ' || 9 <= c as int <= 13 }

  function SkipSpace(s: seq<byte>): (r: seq<byte>)
    ensures r == [] || !IsSpace(r[0])
  {
    if s != [] && IsSpace(s[0]) then SkipSpace(s[1..]) else s
  }

  function DigitRun(s: seq<byte>): (r: seq<byte>)
    ensures |r| <= |s| && r == s[..|r|] && AllDigits(r)
    ensures |r| < |s| ==> !IsDigit(s[|r|])
  {
    if s != [] && IsDigit(s[0]) then [s[0]] + DigitRun(s[1..]) else []
  }

  function Stoi(s: seq<byte>): Option<int> {
    var t := SkipSpace(s);
    var signed := t != [] && (t[0] == '-' || t[0] == '+');
    var run := DigitRun(if signed then t[1..] else t);
    if run == [] then None
    else
      var magnitude: int := DigitsValue(run);
      Some(if signed && t[0] == '-' then -magnitude else magnitude)
  }

  lemma {:induction false} DigitRunStops(d: seq<byte>, rest: seq<byte>)
    requires AllDigits(d) && (rest == [] || !IsDigit(rest[0]))
    ensures DigitRun(d + rest) == d
  {
    if d == [] {
      assert d + rest == rest;
    } else {
      DigitRunStops(d[1..], rest);
      assert (d + rest)[1..] == d[1..] + rest;
      assert [d[0]] + d[1..] == d;
    }
  }

  lemma {:induction false} SkipSpaceStops(b: seq<byte>, s: seq<byte>)
    requires forall i :: 0 <= i < |b| ==> IsSpace(b[i])
    requires s == [] || !IsSpace(s[0])
    ensures SkipSpace(b + s) == s
  {
    if b == [] {
      assert b + s == s;
    } else {
      SkipSpaceStops(b[1..], s);
      assert (b + s)[1..] == b[1..] + s;
    }
  }

  lemma {:induction false} StoiSkipsSpace(lead: seq<byte>, t: seq<byte>)
    requires forall i :: 0 <= i < |lead| ==> IsSpace(lead[i])
    requires t == [] || !IsSpace(t[0])
    ensures Stoi(lead + t) == Stoi(t)
  {
    SkipSpaceStops(lead, t);
    SkipSpaceStops([], t);
    assert [] + t == t;
  }

  // Digits are read up to the first char that is none.
  lemma {:induction false} StoiOfDigits(d: seq<byte>, rest: seq<byte>)
    requires d != [] && AllDigits(d)
    requires rest == [] || !IsDigit(rest[0])
    ensures Stoi(d + rest) == Some(DigitsValue(d))
    ensures Stoi(['-'] + (d + rest)) == Some(-(DigitsValue(d) as int))
  {
    hide DigitsValue;
    DigitRunStops(d, rest);
    assert IsDigit(d[0]);
    assert (['-'] + (d + rest))[1..] == d + rest;
  }

  // Reading back a rendered number, whatever blanks come before it and
  // whatever non-digit comes after it.
  lemma {:induction false} StoiOfToString(lead: seq<byte>, n: int, rest: seq<byte>)
    requires forall i :: 0 <= i < |lead| ==> IsSpace(lead[i])
    requires rest == [] || !IsDigit(rest[0])
    ensures Stoi(lead + (ToString(n) + rest)) == Some(n)
  {
    hide Stoi, DigitsValue;
    var d := Decimal(if n < 0 then -n else n);
    DigitsOfDecimal(if n < 0 then -n else n);
    StoiOfDigits(d, rest);
    assert n < 0 ==> ToString(n) + rest == ['-'] + (d + rest);
    assert IsDigit(d[0]);
    StoiSkipsSpace(lead, ToString(n) + rest);
  }
}
