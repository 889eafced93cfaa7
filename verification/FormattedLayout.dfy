// What formatted data looks like, char by char: where every element of an array stands,
// which line it ends, and how much room all of them take.

module FormattedLayout {
  import opened Bytes
  import opened Arith
  import opened Text
  import opened EclData
  import opened FormattedText

  // ------------------------------------------------------------------
  // Places

  /** Chars of a column. */
  ghost function Width(t: EclArrType, w: nat): nat {
    match t
    case INTE => 12
    case REAL => 17
    case DOUB => 23
    case LOGI => 3
    case CHAR => 11
    case C0NN => w + 3
    case MESS => 1
  }

  /** The place and the room of elements that have c columns of some width, for C0NN. */
  ghost function WidePlace(width: nat, c: nat, k: nat): nat
    requires c > 0
  {
    width * k + (104 / c + 1) * (k / 105) + k % 105 / c
  }

  ghost function WideSize(width: nat, c: nat, n: nat): nat
    requires c > 0
  {
    width * n + (104 / c + 1) * (n / 105) + (n % 105 + c - 1) / c
  }

  /** Where element k starts: behind k columns and the line breaks of the full blocks and of
      the full lines before it. */
  ghost function Place(t: EclArrType, w: nat, k: nat): nat
    requires t.C0NN? ==> w <= 77
  {
    match t
    case INTE => 12 * k + 167 * (k / 1000) + k % 1000 / 6
    case REAL => 17 * k + 250 * (k / 1000) + k % 1000 / 4
    case DOUB => 23 * k + 334 * (k / 1000) + k % 1000 / 3
    case LOGI => 3 * k + 40 * (k / 1000) + k % 1000 / 25
    case CHAR => 11 * k + 15 * (k / 105) + k % 105 / 7
    case C0NN => WidePlace(w + 3, 80 / (w + 3), k)
    case MESS => 0
  }

  /** What n elements take. */
  ghost function Size(t: EclArrType, w: nat, n: nat): nat
    requires t.C0NN? ==> w <= 77
  {
    match t
    case INTE => 12 * n + 167 * (n / 1000) + (n % 1000 + 5) / 6
    case REAL => 17 * n + 250 * (n / 1000) + (n % 1000 + 3) / 4
    case DOUB => 23 * n + 334 * (n / 1000) + (n % 1000 + 2) / 3
    case LOGI => 3 * n + 40 * (n / 1000) + (n % 1000 + 24) / 25
    case CHAR => 11 * n + 15 * (n / 105) + (n % 105 + 6) / 7
    case C0NN => WideSize(w + 3, 80 / (w + 3), n)
    case MESS => 0
  }

  /** Whether a line ends behind element k of n. */
  ghost predicate EndsLine(t: EclArrType, w: nat, k: nat, n: nat)
    requires t.C0NN? ==> w <= 77
  {
    k + 1 == n ||
    match t
    case INTE => k % 1000 == 999 || (k % 1000 + 1) % 6 == 0
    case REAL => k % 1000 == 999 || (k % 1000 + 1) % 4 == 0
    case DOUB => k % 1000 == 999 || (k % 1000 + 1) % 3 == 0
    case LOGI => k % 1000 == 999 || (k % 1000 + 1) % 25 == 0
    case CHAR => k % 105 == 104 || (k % 105 + 1) % 7 == 0
    case C0NN => k % 105 == 104 || (k % 105 + 1) % (80 / (w + 3)) == 0
    case MESS => true
  }

  /** The chars x stand at p. */
  ghost predicate Has(s: seq<byte>, p: nat, x: seq<byte>) {
    p + |x| <= |s| && forall j :: 0 <= j < |x| ==> s[p + j] == x[j]
  }

  /** Fields in their columns from p to the end of s. */
  ghost predicate FieldsAt(s: seq<byte>, p: nat, t: EclArrType, w: nat, fields: seq<seq<byte>>)
    requires t.C0NN? ==> w <= 77
  {
    && |s| == p + Size(t, w, |fields|)
    && forall k :: 0 <= k < |fields| ==>
         && Has(s, p + Place(t, w, k), fields[k])
         && (EndsLine(t, w, k, |fields|) ==> Has(s, p + Place(t, w, k) + Width(t, w), "\n"))
  }

  // ------------------------------------------------------------------
  // Any layout

  /** The line breaks before field k. */
  ghost function BreaksBefore(l: Layout, k: nat): nat
    requires LayoutOk(l)
  {
    Times(k / l.block, LinesOf(l, l.block)) + k % l.block / l.columns
  }

  lemma {:induction false} BreaksStep(l: Layout, a: nat)
    requires LayoutOk(l)
    ensures Next(l, a % l.block + 1) == (a + 1) % l.block
    ensures BreaksBefore(l, a + 1) == BreaksBefore(l, a) + if Breaks(l, a % l.block + 1) then 1 else 0
  {
    hide LinesOf;
    var n, q := a % l.block, a / l.block;
    LinesStep(l, n);
    DivTimes(a, l.block);
    TimesIs(q, l.block);
    if n + 1 == l.block {
      hide Next, Breaks;
      TimesIs(q + 1, l.block);
      TimesNext(q, l.block);
      DivIs(a + 1, l.block, q + 1, 0);
      TimesNext(q, LinesOf(l, l.block));
      DivIs(0, l.columns, 0, 0);
    } else {
      DivIs(a + 1, l.block, q, n + 1);
    }
  }

  // Field k stands where the fields and line breaks before it end, and is followed by its
  // line break, if it has one.
  lemma {:induction false} FieldAt(l: Layout, fields: seq<seq<byte>>, a: nat, k: nat)
    requires LayoutOk(l) && AllWide(fields, l.width) && k < |fields|
    ensures
      var p: int, s := l.width * k + BreaksBefore(l, a + k) - BreaksBefore(l, a), Lines(l, fields, a % l.block);
      && p >= 0 && Has(s, p, fields[k])
      && (Breaks(l, (a + k) % l.block + 1) || (k + 1 == |fields| && Next(l, (a + k) % l.block + 1) % l.columns != 0)
          ==> Has(s, p + l.width, "\n"))
    decreases k
  {
    hide LinesOf, BreaksBefore, Next, Breaks, Has;
    BreaksStep(l, a);
    var n := a % l.block;
    NextBelow(l, n);
    var b, tail := Break(l, n + 1), Lines(l, fields[1..], Next(l, n + 1));
    if k == 0 {
      First(fields[0], b, tail);
      if |fields| == 1 {
        OnlyField(l, n);
      }
    } else {
      FieldAt(l, fields[1..], a + 1, k - 1);
      Distribute(l.width, k, 1);
      var p := l.width * (k - 1) + BreaksBefore(l, a + k) - BreaksBefore(l, a + 1);
      Behind(fields[0], b, tail, p, fields[k]);
      if Has(tail, p + l.width, "\n") {
        Behind(fields[0], b, tail, p + l.width, "\n");
      }
    }
  }

  lemma First(f: seq<byte>, b: seq<byte>, tail: seq<byte>)
    ensures Has(f + (b + tail), 0, f)
    ensures b == "\n" ==> Has(f + (b + tail), |f|, "\n")
    ensures b == [] && tail == "\n" ==> Has(f + (b + tail), |f|, "\n")
  {}

  lemma {:induction false} OnlyField(l: Layout, n: nat)
    requires LayoutOk(l) && n < l.block
    ensures Next(l, n + 1) < l.block && Break(l, n + 1) == (if Breaks(l, n + 1) then "\n" else "")
    ensures Next(l, n + 1) % l.columns != 0 && !Breaks(l, n + 1) ==> Lines(l, [], Next(l, n + 1)) == "\n"
  {
    NextBelow(l, n);
    LinesStep(l, n);
  }

  lemma {:induction false} Behind(f: seq<byte>, b: seq<byte>, tail: seq<byte>, p: nat, x: seq<byte>)
    requires Has(tail, p, x)
    ensures Has(f + (b + tail), |f| + |b| + p, x)
  {
    var s := f + (b + tail);
    forall j | 0 <= j < |x| ensures s[(|f| + |b| + p) + j] == x[j] {
      assert s[(|f| + |b|) + (p + j)] == tail[p + j];
    }
  }

  // ------------------------------------------------------------------
  // The layouts of the types

  lemma Quotients(n: nat, c: nat)
    requires c > 0
    ensures n / c + (if n % c > 0 then 1 else 0) == (n + c - 1) / c
  {
    var q, r := n / c, n % c;
    Distribute(c, q + 1, 1);
    if r > 0 {
      DivIs(n + c - 1, c, q + 1, r - 1);
    } else {
      DivIs(n + c - 1, c, q, c - 1);
    }
  }

  // Where a line ends in a block.
  lemma {:induction false} Ends(l: Layout, a: nat)
    requires LayoutOk(l)
    ensures Breaks(l, a % l.block + 1) <==> a % l.block == l.block - 1 || (a % l.block + 1) % l.columns == 0
    ensures !Breaks(l, a % l.block + 1) ==> Next(l, a % l.block + 1) % l.columns != 0
  {
    var n := a % l.block;
    if n + 1 < l.block {
      DivIs(n + 1, l.block, 0, n + 1);
    } else {
      DivIs(n + 1, l.block, 1, 0);
    }
  }

  // The places and the size of a layout, in numbers.
  lemma {:induction false} InNumbers(l: Layout, k: nat)
    requires LayoutOk(l)
    ensures var breaks := (l.block - 1) / l.columns + 1;
      && BreaksBefore(l, k) == breaks * (k / l.block) + k % l.block / l.columns
      && SizeOnDiskFormatted(l, k)
         == l.width * k + breaks * (k / l.block) + (k % l.block + l.columns - 1) / l.columns
  {
    Quotients(l.block, l.columns);
    RoundUp(l.block, l.columns);
    Quotients(k % l.block, l.columns);
    var breaks := LinesOf(l, l.block);
    assert LinesOf(l, k % l.block) == (k % l.block + l.columns - 1) / l.columns;
    hide LinesOf;
    Gathered(k / l.block, l.block, l.width, breaks, k % l.block);
    DivTimes(k, l.block);
    TimesIs(k / l.block, l.block);
  }

  lemma {:induction false} Gathered(q: nat, b: nat, w: nat, breaks: nat, r: nat)
    ensures Times(q, breaks) == breaks * q
    ensures Times(q, Times(b, w) + breaks) + Times(r, w) == w * (q * b + r) + breaks * q
  {
    TimesIs(q, breaks);
    TimesIs(q, Times(b, w) + breaks);
    TimesIs(b, w);
    TimesIs(r, w);
    Whole(q, b, w, breaks, r);
  }

  lemma {:induction false} RoundUp(n: nat, c: nat)
    requires c > 0 && n > 0
    ensures (n + c - 1) / c == (n - 1) / c + 1
  {
    DivStep(n + c - 1, c);
  }

  lemma {:induction false} Whole(q: nat, b: nat, w: nat, breaks: nat, r: nat)
    ensures q * (b * w + breaks) + r * w == w * (q * b + r) + breaks * q
  {
    assert q * (b * w + breaks) == q * (b * w) + q * breaks;
    assert w * (q * b + r) == w * (q * b) + w * r;
    assert q * (b * w) == w * (q * b) by {
      assert q * (b * w) == (q * b) * w;
    }
  }

  // The layout of a type has these places, line ends and sizes.
  lemma {:induction false} LayoutInNumbers(t: EclArrType, w: nat, k: nat, n: nat)
    requires !t.MESS? && (t.C0NN? ==> w <= 77)
    ensures var l := LayoutOf(t, w);
      && LayoutOk(l) && l.width == Width(t, w)
      && l.width * k + BreaksBefore(l, k) == Place(t, w, k)
      && SizeOnDiskFormatted(l, n) == Size(t, w, n)
  {
    hide BreaksBefore, SizeOnDiskFormatted;
    match t
    case INTE => InRows(1000, 6, 12, 167, k, n);
    case REAL => InRows(1000, 4, 17, 250, k, n);
    case DOUB => InRows(1000, 3, 23, 334, k, n);
    case LOGI => InRows(1000, 25, 3, 40, k, n);
    case CHAR => InRows(105, 7, 11, 15, k, n);
    case C0NN =>
      ColumnsFit(w);
      Wide(w + 3, 80 / (w + 3), k, n);
  }

  lemma InRows(b: nat, c: nat, w: nat, breaks: nat, k: nat, n: nat)
    requires b > 0 && c > 0 && breaks == (b - 1) / c + 1
    ensures var l := Layout(b, c, w);
      && w * k + BreaksBefore(l, k) == w * k + breaks * (k / b) + k % b / c
      && SizeOnDiskFormatted(l, n) == w * n + breaks * (n / b) + (n % b + c - 1) / c
  {
    InNumbers(Layout(b, c, w), k);
    InNumbers(Layout(b, c, w), n);
    hide *;
  }

  lemma Wide(w: nat, c: nat, k: nat, n: nat)
    requires c > 0
    ensures var l := Layout(105, c, w);
      && w * k + BreaksBefore(l, k) == WidePlace(w, c, k)
      && SizeOnDiskFormatted(l, n) == WideSize(w, c, n)
  {
    InNumbers(Layout(105, c, w), k);
    InNumbers(Layout(105, c, w), n);
    hide BreaksBefore, SizeOnDiskFormatted;
  }

  lemma {:induction false} LineEnds(t: EclArrType, w: nat, k: nat, n: nat)
    requires !t.MESS? && (t.C0NN? ==> w <= 77) && EndsLine(t, w, k, n)
    ensures var l := LayoutOf(t, w);
      && LayoutOk(l)
      && (Breaks(l, k % l.block + 1) || (k + 1 == n && Next(l, k % l.block + 1) % l.columns != 0))
  {
    ColumnsFit(w);
    var l := LayoutOf(t, w);
    Ends(l, k);
    hide Breaks, Next;
  }

  // The columns of some fields are laid out like this, at every number and for every type.
  lemma {:induction false} FieldsLaidOut(s: seq<byte>, p: nat, t: EclArrType, w: nat, fields: seq<seq<byte>>)
    requires !t.MESS? && (t.C0NN? ==> w <= 77)
    requires LayoutOk(LayoutOf(t, w)) && AllWide(fields, LayoutOf(t, w).width)
    requires p <= |s| && s[p..] == Lines(LayoutOf(t, w), fields, 0)
    ensures FieldsAt(s, p, t, w, fields)
  {
    hide BreaksBefore, SizeOnDiskFormatted, Breaks, Next, LinesOf, Place, Size, EndsLine, Lines, LayoutOf, Has, Width;
    var l, n := LayoutOf(t, w), |fields|;
    SizeIsLength(l, fields);
    LayoutInNumbers(t, w, 0, n);
    forall k | 0 <= k < n
      ensures Has(s, p + Place(t, w, k), fields[k])
      ensures EndsLine(t, w, k, n) ==> Has(s, p + Place(t, w, k) + Width(t, w), "\n")
    {
      LayoutInNumbers(t, w, k, n);
      NoneBefore(l);
      FieldAt(l, fields, 0, k);
      FromThere(s, p, Place(t, w, k), fields[k]);
      if EndsLine(t, w, k, n) {
        LineEnds(t, w, k, n);
        FromThere(s, p, Place(t, w, k) + Width(t, w), "\n");
      }
    }
  }

  lemma {:induction false} NoneBefore(l: Layout)
    requires LayoutOk(l)
    ensures BreaksBefore(l, 0) == 0 && 0 % l.block == 0
  {
    DivIs(0, l.block, 0, 0);
    DivIs(0, l.columns, 0, 0);
    TimesNext(0, LinesOf(l, l.block));
  }

  lemma {:induction false} FromThere(s: seq<byte>, p: nat, q: nat, x: seq<byte>)
    requires p <= |s| && Has(s[p..], q, x)
    ensures Has(s, p + q, x)
  {
    forall j | 0 <= j < |x| ensures s[(p + q) + j] == x[j] {
      assert s[p..][q + j] == x[j];
    }
  }

  // ------------------------------------------------------------------
  // Arrays

  /** Texts from p to the end of s, each at the right of its column. */
  ghost predicate TextsAt(s: seq<byte>, p: nat, t: EclArrType, ts: seq<seq<byte>>)
    requires !t.C0NN?
  {
    && |s| == p + Size(t, 0, |ts|)
    && forall k :: 0 <= k < |ts| ==>
         && TextAt(s, p + Place(t, 0, k), Width(t, 0), ts[k])
         && (EndsLine(t, 0, k, |ts|) ==> Has(s, p + Place(t, 0, k) + Width(t, 0), "\n"))
  }

  ghost predicate TextAt(s: seq<byte>, p: nat, width: nat, text: seq<byte>) {
    && |text| <= width && Has(s, p + (width - |text|), text)
    && forall j :: p <= j < p + (width - |text|) ==> s[j] == ' '
  }

  /** Strings from p to the end of s, each behind a blank and between quotes, with blanks up
      to its width. */
  ghost predicate StringsAt(s: seq<byte>, p: nat, t: EclArrType, w: nat, ss: seq<seq<byte>>)
    requires t.C0NN? ==> w <= 77
  {
    && |s| == p + Size(t, w, |ss|)
    && forall k :: 0 <= k < |ss| ==>
         && StringAt(s, p + Place(t, w, k), w, ss[k])
         && (EndsLine(t, w, k, |ss|) ==> Has(s, p + Place(t, w, k) + Width(t, w), "\n"))
  }

  ghost predicate StringAt(s: seq<byte>, p: nat, w: nat, x: seq<byte>) {
    && p + w + 3 <= |s| && |x| <= w && s[p] == ' ' && s[p + 1] == '\'' && s[p + w + 2] == '\''
    && Has(s, p + 2, x) && forall j :: p + 2 + |x| <= j < p + 2 + w ==> s[j] == ' '
  }

  lemma {:induction false} TextIs(s: seq<byte>, p: nat, width: nat, text: seq<byte>)
    requires |text| <= width && Has(s, p, PadLeft(text, width, ' '))
    ensures TextAt(s, p, width, text)
  {
    var x, n := PadLeft(text, width, ' '), width - |text|;
    assert |text| < width ==> x == seq(n, _ => ' ') + text;
    forall j | 0 <= j < |text| ensures s[(p + n) + j] == text[j] {
      assert s[p + (n + j)] == x[n + j];
    }
    forall j | p <= j < p + n ensures s[j] == ' ' {
      assert s[p + (j - p)] == x[j - p];
    }
  }

  lemma {:induction false} StringIs(s: seq<byte>, p: nat, w: nat, x: seq<byte>)
    requires |x| <= w && Has(s, p, QuotedField(x, w))
    ensures StringAt(s, p, w, x)
  {
    var f := QuotedField(x, w);
    assert f[0] == ' ' && f[1] == '\'' && f[w + 2] == '\'';
    assert s[p + 0] == f[0] && s[p + 1] == f[1] && s[p + (w + 2)] == f[w + 2];
    forall j | 0 <= j < |x| ensures s[(p + 2) + j] == x[j] {
      assert s[p + (2 + j)] == f[2 + j];
    }
    forall j | p + 2 + |x| <= j < p + 2 + w ensures s[j] == ' ' {
      assert s[p + (j - p)] == f[j - p];
    }
  }

  lemma {:induction false} TextsLaidOut(s: seq<byte>, p: nat, t: EclArrType, ts: seq<seq<byte>>)
    requires t.INTE? || t.REAL? || t.DOUB? || t.LOGI?
    requires AllFitting(ts, LayoutOf(t, 0).width) && LayoutOk(LayoutOf(t, 0))
    requires p <= |s| && s[p..] == Lines(LayoutOf(t, 0), Columns(ts, LayoutOf(t, 0).width), 0)
    ensures TextsAt(s, p, t, ts)
  {
    hide Has, Lines, PadLeft, TextAt, Place, Size, EndsLine;
    var fields := Columns(ts, LayoutOf(t, 0).width);
    FieldsLaidOut(s, p, t, 0, fields);
    forall k | 0 <= k < |ts| ensures TextAt(s, p + Place(t, 0, k), Width(t, 0), ts[k]) {
      assert Fitting(ts[k], LayoutOf(t, 0).width);
      assert Has(s, p + Place(t, 0, k), fields[k]);
      TextIs(s, p + Place(t, 0, k), Width(t, 0), ts[k]);
    }
  }

  lemma {:induction false} StringsLaidOut(s: seq<byte>, p: nat, t: EclArrType, w: nat, ss: seq<seq<byte>>)
    requires (t.CHAR? && w == 8) || (t.C0NN? && w <= 77)
    requires StringsFit(ss, w) && LayoutOk(LayoutOf(t, w))
    requires p <= |s| && s[p..] == Lines(LayoutOf(t, w), QuotedFields(ss, w), 0)
    ensures StringsAt(s, p, t, w, ss)
  {
    hide Has, Lines, QuotedField, StringAt, Place, Size, EndsLine;
    var fields := QuotedFields(ss, w);
    FieldsLaidOut(s, p, t, w, fields);
    forall k | 0 <= k < |ss| ensures StringAt(s, p + Place(t, w, k), w, ss[k]) {
      assert Has(s, p + Place(t, w, k), fields[k]);
      StringIs(s, p + Place(t, w, k), w, ss[k]);
    }
  }
}
