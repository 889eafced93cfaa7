// cJSON_Minify: blanks and comments leave a text in place, and a formatted print
// minifies to the unformatted print of the same tree.

module JsonMinify {
  import opened Bytes
  import opened JsonText
  import opened JsonParse
  import Parser = JsonParser
  import RoundTrip = JsonRoundTrip

  /** What minifying gives. A string or a comment that does not end makes the
      loop run past the terminator. */
  datatype Minified = Overrun | Minified(text: seq<byte>)

  function Put(a: seq<byte>, r: Minified): Minified {
    if r.Overrun? then Overrun else Minified(a + r.text)
  }

  predicate IsSpace(c: byte) { c == ' ' || c == '\t' || c == '\r' || c == '\n' }

  /** Past a comment to the end of the line, which ends before the line feed. */
  function AfterLine(s: seq<byte>): (r: seq<byte>)
    ensures |r| <= |s|
    ensures s != [] && s[0] != NUL && s[0] != '\n' ==> |r| < |s|
  {
    if s == [] || s[0] == NUL || s[0] == '\n' then s else AfterLine(s[1..])
  }

  datatype Comment = Open | Ended(rest: seq<byte>)

  function AfterComment(s: seq<byte>): (r: Comment)
    ensures r.Ended? ==> |r.rest| < |s|
  {
    if s == [] || s[0] == NUL then Open
    else if s[0] == '*' && |s| > 1 && s[1] == '/' then Ended(s[2..])
    else AfterComment(s[1..])
  }

  /** The minified form of what is left of the text. */
  function Minify(s: seq<byte>): Minified
    decreases |s|
  {
    if s == [] then Overrun
    else if s[0] == NUL then Minified([])
    else if IsSpace(s[0]) then Minify(s[1..])
    else if s[0] == '/' && |s| > 1 && s[1] == '/' then Minify(AfterLine(s))
    else if s[0] == '/' && |s| > 1 && s[1] == '*' then
      match AfterComment(s)
      case Open => Overrun
      case Ended(rest) => Minify(rest)
    else if s[0] == '\"' then
      match ScanString(s[1..])
      case Unclosed => Overrun
      case Closed(body, rest) =>
        assert s[1..] == body + ("\"" + rest);
        Put("\"" + (body + "\""), Minify(rest))
    else Put(s[..1], Minify(s[1..]))
  }

  // Blanks, tabs, carriage returns and line feeds are dropped outside of strings.
  lemma SpaceIs(c: byte)
    ensures IsSpace(c) <==> c as int == 32 || c as int == 9 || c as int == 13 || c as int == 10
  {}

  // ------------------------------------------------------------------
  // Minifying a printed tree

  /** A char that minifying copies wherever it stands outside of strings. */
  predicate Kept(c: byte) {
    c != NUL && !IsSpace(c) && c != '/' && c != '\"'
  }

  lemma {:induction false} PutMore(a: seq<byte>, b: seq<byte>, r: Minified)
    ensures Put(a, Put(b, r)) == Put(a + b, r)
  {
    if r.Minified? {
      Assoc(a, b, r.text);
    }
  }

  lemma PutNothing(r: Minified)
    ensures Put([], r) == r
  {}

  lemma KeptRound(t: seq<byte>)
    requires t != [] && Kept(t[0])
    ensures Minify(t) == Put(t[..1], Minify(t[1..]))
  {}

  lemma {:induction false} MinifyKept(s: seq<byte>, post: seq<byte>)
    requires forall i :: 0 <= i < |s| ==> Kept(s[i])
    ensures Minify(s + post) == Put(s, Minify(post))
    decreases |s|
  {
    hide Minify;
    if s == [] {
      PutNothing(Minify(post));
      assert s + post == post;
    } else {
      var t := s + post;
      assert t[1..] == s[1..] + post && t[..1] == [s[0]];
      KeptRound(t);
      MinifyKept(s[1..], post);
      PutMore([s[0]], s[1..], Minify(post));
      assert [s[0]] + s[1..] == s;
    }
  }

  lemma {:induction false} MinifySpaces(s: seq<byte>, post: seq<byte>)
    requires forall i :: 0 <= i < |s| ==> IsSpace(s[i])
    ensures Minify(s + post) == Minify(post)
    decreases |s|
  {
    if s == [] {
      assert s + post == post;
    } else {
      assert (s + post)[1..] == s[1..] + post;
      MinifySpaces(s[1..], post);
    }
  }

  lemma {:induction false} MinifyQuote(s: seq<byte>, post: seq<byte>)
    ensures Minify(Quote(s) + post) == Put(Quote(s), Minify(post))
  {
    hide Escape, ScanString;
    var t := Quote(s) + post;
    assert t == "\"" + (Escape(s) + ("\"" + post));
    assert t[1..] == Escape(s) + ("\"" + post);
    RoundTrip.ScanEscaped(s, post);
  }

  lemma IndentIsSpace(fmt: bool, k: nat)
    ensures forall i :: 0 <= i < |Indent(fmt, k)| ==> IsSpace(Indent(fmt, k)[i])
    ensures forall i :: 0 <= i < |NewLine(fmt)| ==> IsSpace(NewLine(fmt)[i])
    ensures Indent(false, k) == [] && NewLine(false) == []
  {}

  lemma NumberKept(text: seq<byte>)
    requires NumberText(text)
    ensures forall i :: 0 <= i < |text| ==> Kept(text[i])
  {}

  // A printed value, formatted or not, minifies to its unformatted text.
  lemma {:induction false} MinifyRendered(t: Json, fmt: bool, k: nat, post: seq<byte>)
    requires Printable(t)
    ensures Minify(Render(t, fmt, k) + post) == Put(Render(t, false, k), Minify(post))
    decreases t, 1
  {
    hide Minify, Quote, NumberText, RenderItems, RenderMembers;
    match t
    case Null => MinifyKept("null", post);
    case False => MinifyKept("false", post);
    case True => MinifyKept("true", post);
    case Number(text) =>
      NumberKept(text);
      MinifyKept(text, post);
    case String(s) => MinifyQuote(s, post);
    case Array(items) =>
      var r, u := RenderItems(items, fmt, k + 1), RenderItems(items, false, k + 1);
      Assoc("[", r + "]", post);
      Assoc(r, "]", post);
      MinifyKept("[", r + ("]" + post));
      MinifyItems(items, fmt, k + 1, "]" + post);
      MinifyKept("]", post);
      PutMore(u, "]", Minify(post));
      PutMore("[", u + "]", Minify(post));
    case Object(members) => MinifyObject(members, fmt, k, post);
  }

  lemma {:induction false} MinifyItems(items: seq<Json>, fmt: bool, k: nat, post: seq<byte>)
    requires PrintableItems(items)
    ensures Minify(RenderItems(items, fmt, k) + post) == Put(RenderItems(items, false, k), Minify(post))
    decreases items, 2
  {
    hide Minify, Render, Printable, Put;
    if items == [] {
      assert RenderItems(items, fmt, k) + post == post;
      PutNothing(Minify(post));
    } else {
      var more := |items| > 1;
      var sep := ItemSeparator(more, fmt);
      var r, u := RenderItems(items[1..], fmt, k), RenderItems(items[1..], false, k);
      var v, w := Render(items[0], fmt, k), Render(items[0], false, k);
      Assoc(v, sep + r, post);
      Assoc(sep, r, post);
      MinifyRendered(items[0], fmt, k, sep + (r + post));
      MinifySeparator(more, fmt, r + post);
      MinifyItems(items[1..], fmt, k, post);
      PutMore(ItemSeparator(more, false), u, Minify(post));
      PutMore(w, ItemSeparator(more, false) + u, Minify(post));
    }
  }

  lemma {:induction false} MinifySeparator(more: bool, fmt: bool, post: seq<byte>)
    ensures Minify(ItemSeparator(more, fmt) + post) == Put(ItemSeparator(more, false), Minify(post))
  {
    hide Minify;
    if !more {
      assert ItemSeparator(more, fmt) + post == post;
      PutNothing(Minify(post));
    } else {
      var blank := if fmt then " " else "";
      Assoc(",", blank, post);
      MinifyKept(",", blank + post);
      MinifySpaces(blank, post);
      assert ItemSeparator(more, fmt) == "," + blank;
    }
  }

  lemma {:induction false} MinifyObject(members: seq<Member>, fmt: bool, k: nat, post: seq<byte>)
    requires PrintableMembers(members)
    ensures Minify(Render(Object(members), fmt, k) + post) == Put(Render(Object(members), false, k), Minify(post))
    decreases members, 3
  {
    hide Minify, RenderMembers, PrintableMembers, Put, Indent, NewLine;
    var r, u := RenderMembers(members, fmt, k + 1), RenderMembers(members, false, k + 1);
    var line, tabs := NewLine(fmt), Indent(fmt, k);
    IndentIsSpace(fmt, k);
    Assoc("{", line + (r + (tabs + "}")), post);
    Assoc(line, r + (tabs + "}"), post);
    Assoc(r, tabs + "}", post);
    Assoc(tabs, "}", post);
    MinifyKept("{", line + (r + (tabs + ("}" + post))));
    MinifySpaces(line, r + (tabs + ("}" + post)));
    MinifyMembers(members, fmt, k + 1, tabs + ("}" + post));
    MinifySpaces(tabs, "}" + post);
    MinifyKept("}", post);
    PutMore(u, "}", Minify(post));
    PutMore("{", u + "}", Minify(post));
    assert [] + (u + ([] + "}")) == u + "}";
  }

  lemma {:induction false} MinifyMembers(members: seq<Member>, fmt: bool, k: nat, post: seq<byte>)
    requires PrintableMembers(members)
    ensures Minify(RenderMembers(members, fmt, k) + post) == Put(RenderMembers(members, false, k), Minify(post))
    decreases members, 2
  {
    hide Minify, Render, Printable, Put, Indent, Quote;
    if members == [] {
      assert RenderMembers(members, fmt, k) + post == post;
      PutNothing(Minify(post));
    } else {
      MinifyMember(members, fmt, k, post);
      IndentIsSpace(fmt, k);
      var text := RoundTrip.MembersText(members, fmt, k, post);
      MinifySpaces(Indent(fmt, k), text);
      MemberSplit(members, fmt, k, post);
      UnformattedMember(members, k);
    }
  }

  lemma {:induction false} MemberSplit(members: seq<Member>, fmt: bool, k: nat, end: seq<byte>)
    requires members != []
    ensures RenderMembers(members, fmt, k) + end == Indent(fmt, k) + RoundTrip.MembersText(members, fmt, k, end)
  {
    hide Render, Quote, MemberSeparator, Indent;
    var key := Quote(members[0].key);
    var colon := if fmt then ":\t" else ":";
    var v := Render(members[0].value, fmt, k);
    var sep := MemberSeparator(|members| > 1, fmt);
    var tail := RenderMembers(members[1..], fmt, k);
    Assoc(Indent(fmt, k), key + (colon + (v + (sep + tail))), end);
    Assoc(key, colon + (v + (sep + tail)), end);
    Assoc(colon, v + (sep + tail), end);
    Assoc(v, sep + tail, end);
    Assoc(sep, tail, end);
  }

  /** The unformatted text of some members. */
  function Compact(members: seq<Member>, k: nat): seq<byte>
    requires members != []
  {
    Quote(members[0].key) + (":" + (Render(members[0].value, false, k)
    + ((if |members| > 1 then "," else "") + RenderMembers(members[1..], false, k))))
  }

  lemma {:induction false} UnformattedMember(members: seq<Member>, k: nat)
    requires members != []
    ensures RenderMembers(members, false, k) == Compact(members, k)
  {
    PlainSeparator(|members| > 1);
    IndentIsSpace(false, k);
    hide Render, Quote, Indent, NewLine, MemberSeparator;
    assert [] + Compact(members, k) == Compact(members, k);
  }

  lemma PlainSeparator(more: bool)
    ensures MemberSeparator(more, false) == if more then "," else ""
  {}

  lemma {:induction false} MinifyMember(members: seq<Member>, fmt: bool, k: nat, post: seq<byte>)
    requires members != [] && PrintableMembers(members)
    ensures Minify(RoundTrip.MembersText(members, fmt, k, post)) == Put(Compact(members, k), Minify(post))
    decreases members, 1
  {
    hide Minify, Render, Printable, Put, Indent, Quote, RenderMembers, NewLine;
    var m, more := members[0], |members| > 1;
    var tail, u := RenderMembers(members[1..], fmt, k), RenderMembers(members[1..], false, k);
    var blank := if fmt then "\t" else "";
    var colon := if fmt then ":\t" else ":";
    var v, w := Render(m.value, fmt, k), Render(m.value, false, k);
    var comma := if more then "," else "";
    var after := RoundTrip.AfterValue(members, fmt, k, post);
    MinifyQuote(m.key, RoundTrip.AfterKey(members, fmt, k, post));
    assert colon == ":" + blank;
    Assoc(":", blank, v + after);
    MinifyKept(":", blank + (v + after));
    MinifySpaces(blank, v + after);
    MinifyRendered(m.value, fmt, k, after);
    Assoc(comma, NewLine(fmt), tail + post);
    MinifyKept(comma, NewLine(fmt) + (tail + post));
    IndentIsSpace(fmt, k);
    MinifySpaces(NewLine(fmt), tail + post);
    MinifyMembers(members[1..], fmt, k, post);
    PutMore(comma, u, Minify(post));
    PutMore(w, comma + u, Minify(post));
    PutMore(":", w + (comma + u), Minify(post));
    PutMore(Quote(m.key), ":" + (w + (comma + u)), Minify(post));
  }

  // Minifying undoes formatting, and leaves unformatted text as it is.
  lemma {:induction false} MinifyPrinted(t: Json, fmt: bool)
    requires Printable(t)
    ensures Minify(Render(t, fmt, 0) + [NUL]) == Minified(Render(t, false, 0))
  {
    hide Render, Printable;
    MinifyRendered(t, fmt, 0, [NUL]);
    assert Render(t, false, 0) + [] == Render(t, false, 0);
  }

  // ------------------------------------------------------------------
  // In place

  /** The string at the front of t, with its quotes. */
  function Quoted(t: seq<byte>): seq<byte>
    requires t != [] && ScanString(t[1..]).Closed?
  {
    "\"" + (ScanString(t[1..]).body + "\"")
  }

  lemma {:induction false} MinifyRound(t: seq<byte>)
    requires t != []
    ensures t[0] == NUL ==> Minify(t) == Minified([])
    ensures IsSpace(t[0]) ==> Minify(t) == Minify(t[1..])
    ensures |t| > 1 && t[0] == '/' && t[1] == '/' ==> Minify(t) == Minify(AfterLine(t))
    ensures |t| > 1 && t[0] == '/' && t[1] == '*' ==>
      Minify(t) == if AfterComment(t).Open? then Overrun else Minify(AfterComment(t).rest)
    ensures t[0] == '\"' ==>
      Minify(t) == if ScanString(t[1..]).Unclosed? then Overrun else Put(Quoted(t), Minify(ScanString(t[1..]).rest))
    ensures |t| > 1 && t[0] != NUL && !IsSpace(t[0]) && t[0] != '\"' && !(t[0] == '/' && (t[1] == '/' || t[1] == '*')) ==>
      Minify(t) == Put(t[..1], Minify(t[1..]))
  {
    hide Put, AfterLine, AfterComment, ScanString;
  }

  /** A C string with its terminator. */
  predicate Ends(s: seq<byte>) {
    s != [] && s[|s| - 1] == NUL && forall k :: 0 <= k < |s| - 1 ==> s[k] != NUL
  }

  /** The buffer holds the C string s from a place on. */
  ghost predicate From(json: array<byte>, at: nat, s: seq<byte>)
    reads json
  {
    at < |s| <= json.Length && Ends(s) && forall k :: at <= k < |s| ==> json[k] == s[k]
  }

  lemma FromNext(json: array<byte>, at: nat, s: seq<byte>)
    requires From(json, at, s)
    ensures Ends(s) && json[at] == s[at] == s[at..][0]
    ensures s[at] == NUL <==> at == |s| - 1
    ensures s[at] != NUL ==>
      From(json, at + 1, s) && s[at..][1..] == s[at + 1..] && json[at + 1] == s[at + 1] == s[at..][1]
  {}

  method SkipLine(json: array<byte>, at: nat, ghost s: seq<byte>) returns (next: nat)
    requires From(json, at, s) && json[at] == '/'
    ensures at < next < |s| && s[next..] == AfterLine(s[at..])
  {
    hide From, AfterLine;
    FromNext(json, at, s);
    LineRound(s[at..]);
    next := at + 1;
    FromNext(json, next, s);
    while json[next] != NUL && json[next] != '\n'
      invariant at < next < |s| <= json.Length && From(json, next, s)
      invariant AfterLine(s[next..]) == AfterLine(s[at..])
      decreases |s| - next
    {
      FromNext(json, next, s);
      LineRound(s[next..]);
      next := next + 1;
      FromNext(json, next, s);
    }
    FromNext(json, next, s);
    LineRound(s[next..]);
  }

  lemma LineRound(s: seq<byte>)
    requires s != []
    ensures AfterLine(s) == if s[0] == NUL || s[0] == '\n' then s else AfterLine(s[1..])
  {}

  method SkipComment(json: array<byte>, at: nat, ghost s: seq<byte>) returns (next: nat)
    requires From(json, at, s) && AfterComment(s[at..]).Ended?
    ensures at < next < |s| && s[next..] == AfterComment(s[at..]).rest
  {
    hide From, AfterComment;
    next := at;
    FromNext(json, next, s);
    CommentRound(s[next..]);
    while json[next] != NUL && !(json[next] == '*' && json[next + 1] == '/')
      invariant at <= next < |s| <= json.Length && From(json, next, s)
      invariant json[next] != NUL ==> next + 1 < |s|
      invariant AfterComment(s[next..]) == AfterComment(s[at..])
      decreases |s| - next
    {
      FromNext(json, next, s);
      CommentRound(s[next..]);
      next := next + 1;
      FromNext(json, next, s);
    }
    FromNext(json, next, s);
    CommentRound(s[next..]);
    FromNext(json, next + 1, s);
    assert s[next..][2..] == s[next + 2..];
    next := next + 2;
  }

  lemma CommentRound(s: seq<byte>)
    requires s != []
    ensures AfterComment(s)
      == if s[0] == NUL then Open
         else if s[0] == '*' && |s| > 1 && s[1] == '/' then Ended(s[2..])
         else AfterComment(s[1..])
  {}

  /** *into++ = *json++. */
  method Move(json: array<byte>, into: nat, at: nat, ghost s: seq<byte>)
    requires into <= at && From(json, at, s)
    modifies json
    ensures json[..into + 1] == old(json[..into]) + [s[at]]
    ensures forall k :: into < k < json.Length ==> json[k] == old(json[k])
    ensures at + 1 < |s| ==> From(json, at + 1, s)
  {
    json[into] := json[at];
  }

  lemma ShortTails(t: seq<byte>)
    ensures |t| == 1 ==> t[1..] == []
    ensures |t| == 2 ==> t[2..] == []
  {}

  // A closed string does not reach the terminator, neither bare nor behind a backslash.
  lemma {:induction false} ClosedEarlier(t: seq<byte>)
    requires ScanString(t).Closed? && Ends(t)
    ensures t[0] != NUL
    ensures t[0] == '\\' ==> |t| > 2
  {
    ShortTails(t);
  }

  lemma {:induction false} StillClosed(s: seq<byte>, at: nat, n: nat, skipped: nat)
    requires at < |s| && Ends(s) && Parser.ScannedTo(s[at + 1..], n, skipped)
    requires at + 1 + n < |s| && ScanString(s[at + 1..]).Closed?
    ensures s[at + 1 + n] != NUL
    ensures s[at + 1 + n] == '\\' ==> at + n + 3 < |s|
  {
    hide ScanString;
    var t := s[at + 1..][n..];
    assert t == s[at + 1 + n..];
    ClosedEarlier(t);
  }

  /** The string branch of the loop. */
  method CopyString(json: array<byte>, into: nat, at: nat, ghost s: seq<byte>) returns (write: nat, read: nat)
    requires into <= at < |s| <= json.Length && From(json, at, s)
    requires json[at] == '\"' && ScanString(s[at + 1..]).Closed?
    modifies json
    ensures into < write <= read < |s| && at < read && From(json, read, s)
    ensures json[..write] == old(json[..into]) + Quoted(s[at..])
    ensures forall k :: write <= k < json.Length ==> json[k] == old(json[k])
    ensures s[read..] == ScanString(s[at..][1..]).rest
  {
    hide ScanString, Parser.ScannedTo, From, Ends;
    ghost var before := json[..into];
    FromNext(json, at, s);
    assert [s[at]] == "\"" && s[at..][1..] == s[at + 1..];
    Move(json, into, at, s);
    write, read := CopyRest(json, into + 1, at + 1, s);
    Assoc(before, "\"", ScanString(s[at + 1..]).body + "\"");
  }

  /** The string behind its opening quote, and the closing quote. */
  method CopyRest(json: array<byte>, into: nat, from: nat, ghost s: seq<byte>) returns (write: nat, read: nat)
    requires 0 < from < |s| <= json.Length && into <= from && From(json, from, s)
    requires ScanString(s[from..]).Closed?
    modifies json
    ensures into < write <= read < |s| && from < read && From(json, read, s)
    ensures json[..write] == old(json[..into]) + (ScanString(s[from..]).body + "\"")
    ensures forall k :: write <= k < json.Length ==> json[k] == old(json[k])
    ensures s[read..] == ScanString(s[from..]).rest
  {
    hide ScanString, Parser.ScannedTo, From, Ends;
    ghost var before, skipped := json[..into], 0;
    Parser.ScannedNothing(s[from..]);
    write, read, skipped := CopyBody(json, into, from, s, from - 1);
    FromNext(json, read, s);
    StringClosed(s, from, read - from, skipped);
    Assoc(before, s[from..read], "\"");
    Move(json, write, read, s);
    write, read := write + 1, read + 1;
  }

  /** The loop of the string branch, up to the closing quote. */
  method CopyBody(json: array<byte>, into: nat, from: nat, ghost s: seq<byte>, ghost at: nat)
    returns (write: nat, read: nat, ghost skipped: nat)
    requires from == at + 1 < |s| <= json.Length && into <= from && From(json, from, s)
    requires ScanString(s[at + 1..]).Closed? && Parser.ScannedTo(s[at + 1..], 0, 0)
    modifies json
    ensures from <= read < |s| && write - into == read - from && From(json, read, s)
    ensures json[..write] == old(json[..into]) + s[from..read]
    ensures forall k :: write <= k < json.Length ==> json[k] == old(json[k])
    ensures Parser.ScannedTo(s[at + 1..], read - at - 1, skipped)
    ensures json[read] == NUL || json[read] == '\"'
  {
    hide ScanString, Parser.ScannedTo, From;
    write, read, skipped := into, from, 0;
    while json[read] != NUL && json[read] != '\"'
      invariant from <= read < |s| <= json.Length && write - into == read - from && From(json, read, s)
      invariant json[..write] == old(json[..into]) + s[from..read]
      invariant forall k :: write <= k < json.Length ==> json[k] == old(json[k])
      invariant Parser.ScannedTo(s[at + 1..], read - at - 1, skipped)
      decreases |s| - read
    {
      ghost var was := read;
      write, read, skipped := CopyChar(json, write, read, s, at, skipped);
      assert s[from..read] == s[from..was] + s[was..read];
      Assoc(old(json[..into]), s[from..was], s[was..read]);
    }
  }

  lemma {:induction false} StringClosed(s: seq<byte>, from: nat, n: nat, skipped: nat)
    requires 0 < from && Ends(s) && from + n < |s| && Parser.ScannedTo(s[from..], n, skipped)
    requires ScanString(s[from..]).Closed? && (s[from + n] == NUL || s[from + n] == '\"')
    ensures from + n + 1 < |s| && [s[from + n]] == "\""
    ensures ScanString(s[from..]) == Closed(s[from..from + n], s[from + n + 1..])
  {
    hide ScanString, Parser.ScannedTo;
    var body := s[from..];
    assert body[n] == s[from + n];
    StillClosed(s, from - 1, n, skipped);
    Parser.ScannedAll(body, n, skipped);
    assert s[from..from + n] == body[..n] && body[n + 1..] == s[from + n + 1..];
  }

  /** One round of the loop over a string: a char, or a backslash and the next char. */
  method CopyChar(json: array<byte>, into: nat, from: nat, ghost s: seq<byte>, ghost at: nat, ghost counted: nat)
    returns (write: nat, read: nat, ghost skipped: nat)
    requires at < from < |s| <= json.Length && into <= from && From(json, from, s)
    requires json[from] != NUL && json[from] != '\"'
    requires ScanString(s[at + 1..]).Closed? && Parser.ScannedTo(s[at + 1..], from - at - 1, counted)
    modifies json
    ensures from < read < |s| && write - into == read - from && From(json, read, s)
    ensures json[..write] == old(json[..into]) + s[from..read]
    ensures forall k :: write <= k < json.Length ==> json[k] == old(json[k])
    ensures Parser.ScannedTo(s[at + 1..], read - at - 1, skipped)
  {
    hide ScanString, Parser.ScannedTo, From;
    ghost var body := s[at + 1..];
    write, read, skipped := into, from, counted;
    FromNext(json, read, s);
    assert body[read - at - 1] == s[read];
    Parser.ScannedRound(body, read - at - 1, skipped);
    StillClosed(s, at, read - at - 1, skipped);
    if json[read] == '\\' {
      Move(json, write, read, s);
      write, read, skipped := write + 1, read + 1, skipped + 1;
    }
    Move(json, write, read, s);
    write, read := write + 1, read + 1;
    assert json[..write] == old(json[..into]) + s[from..read];
  }

  /** A buffer that starts with a C string. */
  ghost predicate HoldsText(json: array<byte>, text: seq<byte>)
    reads json
  {
    |text| < json.Length && json[..|text|] == text && json[|text|] == NUL && NulFree(text)
  }

  /** cJSON_Minify: two cursors on one buffer, of which the one that writes is never
      ahead. Behind the new terminator the buffer is as it was. */
  method MinifyInPlace(json: array<byte>, ghost text: seq<byte>)
    requires HoldsText(json, text) && Minify(text + [NUL]).Minified?
    modifies json
    ensures var m := Minify(text + [NUL]).text;
      && |m| <= |text| && json[..|m| + 1] == m + [NUL]
      && json[|m| + 1..] == old(json[|m| + 1..])
  {
    hide Minify, Put, From, Ends;
    ghost var s := text + [NUL];
    var into, at := 0, 0;
    FromStart(json, text);
    PutNothing(Minify(s));
    assert s[0..] == s && json[..0] == [];
    while json[at] != NUL
      invariant into <= at < |s| <= json.Length && From(json, at, s)
      invariant forall k :: into <= k < json.Length ==> json[k] == old(json[k])
      invariant Put(json[..into], Minify(s[at..])) == Minify(s)
      decreases |s| - at
    {
      into, at := Round(json, into, at, s);
    }
    FromNext(json, at, s);
    MinifyRound(s[at..]);
    PutLast(json[..into]);
    json[into] := NUL;
  }

  /** One round of the loop. */
  method Round(json: array<byte>, into: nat, at: nat, ghost s: seq<byte>) returns (write: nat, read: nat)
    requires into <= at < |s| <= json.Length && From(json, at, s) && json[at] != NUL
    requires Put(json[..into], Minify(s[at..])).Minified?
    modifies json
    ensures into <= write <= read < |s| && at < read && From(json, read, s)
    ensures forall k :: write <= k < json.Length ==> json[k] == old(json[k])
    ensures Put(json[..write], Minify(s[read..])) == Put(old(json[..into]), Minify(s[at..]))
  {
    hide Minify, Put, From, ScanString, AfterLine, AfterComment;
    ghost var t, done := s[at..], json[..into];
    FromNext(json, at, s);
    MinifyRound(t);
    OverrunStays(done);
    write, read := into, at + 1;
    if IsSpace(json[at]) {
    } else if json[at] == '/' && json[at + 1] == '/' {
      read := SkipLine(json, at, s);
      FromLater(json, at, read, s);
    } else if json[at] == '/' && json[at + 1] == '*' {
      read := SkipComment(json, at, s);
      FromLater(json, at, read, s);
    } else if json[at] == '\"' {
      PutMore(done, Quoted(t), Minify(ScanString(t[1..]).rest));
      write, read := CopyString(json, into, at, s);
    } else {
      PutMore(done, [s[at]], Minify(s[at + 1..]));
      assert t[..1] == [s[at]];
      Move(json, into, at, s);
      write := into + 1;
    }
  }

  lemma {:induction false} PutLast(a: seq<byte>)
    ensures Put(a, Minified([])) == Minified(a)
  {
    assert a + [] == a;
  }

  lemma OverrunStays(a: seq<byte>)
    ensures Put(a, Overrun) == Overrun
  {}

  lemma {:induction false} FromStart(json: array<byte>, text: seq<byte>)
    requires HoldsText(json, text)
    ensures From(json, 0, text + [NUL])
  {
    assert forall k :: 0 <= k < |text| ==> json[k] == json[..|text|][k];
  }

  lemma FromLater(json: array<byte>, at: nat, later: nat, s: seq<byte>)
    requires From(json, at, s) && at <= later < |s|
    ensures From(json, later, s)
  {}
}
