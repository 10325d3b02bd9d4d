/**
Exactly when the stand-in stream reads back: U+0085, U+2028 and U+2029 stay raw in a JSON string, and a
reader that splits lines there loses the event. What is left of such an event contributes nothing.
*/
module SseBreaks {
  import opened Options
  import opened Json
  import opened JsonPrefix
  import opened SseStream
  import opened Text

  // ---------- Escaped text ----------

  lemma {:induction false} EscapeConcat(x: string, y: string)
    ensures Escape(x + y) == Escape(x) + Escape(y)
  {
    if x == "" {
      assert x + y == y;
    } else {
      assert (x + y)[1..] == x[1..] + y;
      EscapeConcat(x[1..], y);
    }
  }

  /** A character is written as itself, or behind a backslash; a quote never stands alone. */
  lemma EscapeCharHead(c: char)
    ensures EscapeChar(c)[0] == '\\' || (EscapeChar(c) == [c] && c != '"' && c != '\\')
  {
  }

  /** What may follow an escaped text: nothing, or its closing quote, a comma, a blank and a key in `c`. */
  predicate Closing(x: string) {
    x == "" || (|x| >= 5 && x[0] == '"' && x[1] == ',' && x[2] == ' ' && x[3] == '"' && x[4] == 'c')
  }

  lemma EscapeStep(y: string, x: string)
    requires y != ""
    ensures Escape(y) + x == EscapeChar(y[0]) + (Escape(y[1..]) + x)
  {
  }

  lemma PrefixTail(p: string, c: char, t: string)
    requires p != "" && p <= [c] + t
    ensures p[0] == c && p[1..] <= t
  {
    assert ([c] + t)[1..] == t;
    assert p == ([c] + t)[..|p|];
  }

  /** The front of an escaped text that does not begin with a quote or a backslash is a character of the text. */
  lemma Peel(y: string, x: string, p: string)
    requires Closing(x) && p <= Escape(y) + x && p != "" && p[0] != '"' && p[0] != '\\'
    ensures y != "" && p[0] == y[0] && p[1..] <= Escape(y[1..]) + x
  {
    assert "" + x == x;
    assert y != "";
    EscapeStep(y, x);
    EscapeCharHead(y[0]);
    assert p[0] == EscapeChar(y[0])[0];
    PrefixTail(p, y[0], Escape(y[1..]) + x);
  }

  lemma QuoteEnds(y: string, x: string, p: string)
    requires Closing(x) && p <= Escape(y) + x && p != "" && p[0] == '"'
    ensures p <= x
  {
    assert "" + x == x;
    if y != "" {
      EscapeStep(y, x);
      EscapeCharHead(y[0]);
    }
  }

  lemma {:induction false} SkipWsEscaped(y: string, x: string, p: string) returns (z: string)
    requires Closing(x) && p <= Escape(y) + x
    ensures SkipWs(p) <= Escape(z) + x
  {
    if p != "" && IsWs(p[0]) {
      Peel(y, x, p);
      z := SkipWsEscaped(y[1..], x, p[1..]);
    } else {
      z := y;
    }
  }

  lemma {:induction false} StripLeftEscaped(y: string, x: string, p: string) returns (z: string)
    requires Closing(x) && p <= Escape(y) + x
    ensures StripLeft(p) <= Escape(z) + x
  {
    if p != "" && IsSpace(p[0]) {
      Peel(y, x, p);
      z := StripLeftEscaped(y[1..], x, p[1..]);
    } else {
      z := y;
    }
  }

  // ---------- Pieces contribute nothing ----------

  lemma ReadOne(c: char, p: string, text: string, rest: string)
    requires c != '"' && c != '\\' && c >= ' ' && ReadString(p) == Some((text, rest))
    ensures ReadString([c] + p) == Some(([c] + text, rest))
  {
    assert ([c] + p)[1..] == p;
  }

  lemma CommaKey(p: string)
    requires |p| >= 3 && p[0] == ',' && p[1] == ' ' && p[2] == '"'
    ensures ReadString(p) == Some((", ", p[3..]))
  {
    var rest := p[3..];
    assert p == [','] + ([' '] + ("\"" + rest));
    ReadQuote(rest);
    ReadOne(' ', "\"" + rest, "", rest);
    ReadOne(',', [' '] + ("\"" + rest), [' '] + "", rest);
    assert [','] + ([' '] + "") == ", ";
  }

  lemma ShortKey(p: string)
    requires p == "" || p == "," || p == ", "
    ensures ReadString(p) == None
  {
    if p != "" {
      assert p[1..] == "" || p[1..] == " ";
      assert |p| == 2 ==> p[1..][1..] == "";
    }
  }

  /** Behind the closing quote there is a comma, so what looks like a member has no colon. */
  lemma NoMembers(x: string, p: string)
    requires Closing(x) && p <= x && p != "" && p[0] == '"'
    ensures ReadMembers(p) == None
  {
    var q := p[1..];
    if |p| < 4 {
      assert q == "" || q == "," || q == ", ";
      ShortKey(q);
    } else {
      CommaKey(q);
      assert |p| > 4 ==> q[3..][0] == 'c';
    }
  }

  lemma NotObject(p: string)
    requires p == "" || p[0] != '{'
    ensures ReadValue(p).Some? ==> !ReadValue(p).value.0.JObj?
  {
  }

  lemma EmptyObjectParts()
    ensures DataParts(Some(JObj([]))) == []
  {
  }

  /** A piece of escaped text that looks like an object is an empty one or none. */
  lemma PieceObject(y: string, x: string, p: string)
    requires Closing(x) && p <= Escape(y) + x && p != "" && p[0] == '{'
    ensures ReadValue(p) == None || ReadValue(p).value.0 == JObj([])
  {
    Peel(y, x, p);
    var z := SkipWsEscaped(y[1..], x, p[1..]);
    var u := SkipWs(p[1..]);
    if u != "" && u[0] == '"' {
      QuoteEnds(z, x, u);
      NoMembers(x, u);
    }
  }

  lemma PiecePayload(y: string, x: string, p: string)
    requires Closing(x) && p <= Escape(y) + x && (p == "" || !IsSpace(p[0]))
    ensures PayloadParts(p) == []
  {
    if p != "" && p[0] == '{' {
      PieceObject(y, x, p);
      EmptyObjectParts();
    } else {
      NotObject(p);
    }
    assert SkipWs(p) == p;
  }

  /** The part of an escaped line after `data:`. */
  lemma AfterData(y: string, x: string, line: string) returns (z: string)
    requires Closing(x) && line <= Escape(y) + x && "data:" <= line
    ensures line[5..] <= Escape(z) + x
  {
    var tag := "data:";
    assert forall i :: 0 <= i < 5 ==> line[i] == tag[i];
    assert line[1..][1..] == line[2..] && line[2..][1..] == line[3..] && line[3..][1..] == line[4..] && line[4..][1..] == line[5..];
    Peel(y, x, line);
    Peel(y[1..], x, line[1..]);
    Peel(y[1..][1..], x, line[2..]);
    Peel(y[1..][1..][1..], x, line[3..]);
    Peel(y[1..][1..][1..][1..], x, line[4..]);
    z := y[1..][1..][1..][1..][1..];
  }

  lemma PieceSilent(y: string, x: string)
    requires Closing(x)
    ensures LineParts(Escape(y) + x) == []
  {
    var line := Escape(y) + x;
    if "data:" <= line {
      PieceData(y, x, line);
      LineOfPayload(line, Strip(line[5..]));
    } else {
      NoData(line);
    }
  }

  lemma NoData(line: string)
    requires !("data:" <= line)
    ensures LineParts(line) == []
  {
  }

  lemma PieceData(y: string, x: string, line: string)
    requires Closing(x) && line <= Escape(y) + x && "data:" <= line
    ensures PayloadParts(Strip(line[5..])) == []
  {
    var z := AfterData(y, x, line);
    z := StripLeftEscaped(z, x, line[5..]);
    PiecePayload(z, x, Strip(line[5..]));
  }

  // ---------- Lines ----------

  lemma {:induction false} BreakLine(a: string, b: char, more: string)
    requires OneLine(a) && IsBreak(b)
    ensures SplitLines(a + ([b] + more)) == [a] + SplitLines(more)
  {
    var s := a + ([b] + more);
    if a == "" {
      assert s == [b] + more && s[1..] == more;
    } else {
      assert s[1..] == a[1..] + ([b] + more);
      BreakLine(a[1..], b, more);
      assert a == [a[0]] + a[1..];
    }
  }

  lemma BrokenLine(a: string, b: char, more: string)
    requires OneLine(a) && IsBreak(b)
    ensures StreamParts(a + ([b] + more)) == LineParts(a) + StreamParts(more)
  {
    BreakLine(a, b, more);
    FlatMapCons(LineParts, a, SplitLines(more));
  }

  lemma Newlines(rest: string)
    ensures "\n\n" + rest == ['\n'] + ("" + (['\n'] + rest))
  {
  }

  // What the proofs below need of the reader: `g` is what a stream contributes and `l` what a line does.

  predicate Cut(g: string -> seq<string>, l: string -> seq<string>, a: string, b: char, more: string) {
    OneLine(a) && IsBreak(b) ==> g(a + ([b] + more)) == l(a) + g(more)
  }

  predicate Mute(l: string -> seq<string>, y: string, x: string) {
    Closing(x) ==> l(Escape(y) + x) == []
  }

  predicate MuteShort(l: string -> seq<string>, z: string, c: string) {
    |z| <= 1 ==> l(Escape(z) + ("\"" + c)) == []
  }

  predicate MuteFront(l: string -> seq<string>, d: string, j: Json, p: string) {
    ReadValue(d) == Some((j, "")) && p <= d && p != d && p != "" && p[0] == '{' ==> l("data: " + p) == []
  }

  ghost predicate Reader(g: string -> seq<string>, l: string -> seq<string>) {
    && (forall a, b, more :: Cut(g, l, a, b, more))
    && (forall y, x :: Mute(l, y, x))
    && (forall z, c :: MuteShort(l, z, c))
    && (forall d, j, p :: MuteFront(l, d, j, p))
    && l("") == []
  }

  /** `s`, at the end of an event in front of `rest`, contributes nothing. */
  predicate Vanishes(g: string -> seq<string>, s: string, rest: string) {
    g(s + ("\n\n" + rest)) == g(rest)
  }

  lemma LastLine(g: string -> seq<string>, l: string -> seq<string>, a: string, rest: string)
    requires Reader(g, l) && OneLine(a) && l(a) == []
    ensures Vanishes(g, a, rest)
  {
    Newlines(rest);
    assert Cut(g, l, a, '\n', "" + (['\n'] + rest)) && Cut(g, l, "", '\n', rest);
  }

  lemma BreakLast(g: string -> seq<string>, l: string -> seq<string>, a: string, b: char, s: string, rest: string)
    requires Reader(g, l) && OneLine(a) && l(a) == [] && IsBreak(b) && Vanishes(g, s, rest)
    ensures Vanishes(g, a + ([b] + s), rest)
  {
    assert Cut(g, l, a, b, s + ("\n\n" + rest));
    assert (a + ([b] + s)) + ("\n\n" + rest) == a + ([b] + (s + ("\n\n" + rest)));
  }

  predicate IsWide(c: char) {
    c == '\U{85}' || c == '\U{2028}' || c == '\U{2029}'
  }

  /** Where the first wide break is. */
  lemma {:induction false} FirstWide(s: string) returns (a: string, b: char, more: string)
    requires !NoWideBreak(s)
    ensures s == a + ([b] + more) && NoWideBreak(a) && IsWide(b)
  {
    if IsWide(s[0]) {
      a, b, more := "", s[0], s[1..];
    } else {
      assert !NoWideBreak(s[1..]) by {
        var i :| 0 <= i < |s| && IsWide(s[i]);
        assert s[1..][i - 1] == s[i];
      }
      var front;
      front, b, more := FirstWide(s[1..]);
      a := [s[0]] + front;
      assert s == [s[0]] + s[1..];
    }
  }

  lemma EscapeSplit(a: string, b: char, more: string)
    requires IsWide(b)
    ensures Escape(a + ([b] + more)) == Escape(a) + ([b] + Escape(more))
  {
    EscapeConcat(a, [b] + more);
    assert ([b] + more)[1..] == more;
  }

  // ---------- What is left of a broken event ----------

  lemma NotData(line: string)
    requires line == "" || line[0] != 'd' || (|line| >= 2 && line[1] != 'a')
    ensures LineParts(line) == []
  {
    var tag := "data:";
    assert tag[0] == 'd' && tag[1] == 'a';
    assert !(tag <= line);
  }

  lemma EscapeOne(z: string)
    requires |z| == 1
    ensures Escape(z) == EscapeChar(z[0])
  {
    assert z[1..] == "" && EscapeChar(z[0]) + "" == EscapeChar(z[0]);
  }

  /** A short text and its closing quote do not begin with `data:`. */
  lemma ShortLine(z: string, c: string)
    requires |z| <= 1
    ensures LineParts(Escape(z) + ("\"" + c)) == []
  {
    if |z| == 1 {
      EscapeOne(z);
      EscapeCharHead(z[0]);
    }
    NotData(Escape(z) + ("\"" + c));
  }

  lemma ShortPlain(g: string -> seq<string>, l: string -> seq<string>, z: string, c: string, rest: string)
    requires Reader(g, l) && |z| <= 1 && OneLine(c) && NoWideBreak(z)
    ensures Vanishes(g, Escape(z) + ("\"" + c), rest)
  {
    EscapeOneLine(z);
    assert MuteShort(l, z, c);
    LastLine(g, l, Escape(z) + ("\"" + c), rest);
  }

  lemma EscapeWide(z: string)
    requires |z| == 1 && IsWide(z[0])
    ensures Escape(z) == [z[0]]
  {
    EscapeOne(z);
  }

  lemma ShortTail(g: string -> seq<string>, l: string -> seq<string>, z: string, c: string, rest: string)
    requires Reader(g, l) && |z| <= 1 && OneLine(c)
    ensures Vanishes(g, Escape(z) + ("\"" + c), rest)
  {
    if NoWideBreak(z) {
      ShortPlain(g, l, z, c, rest);
    } else {
      EscapeWide(z);
      ShortBroken(g, l, z[0], c, rest);
    }
  }

  lemma ShortBroken(g: string -> seq<string>, l: string -> seq<string>, b: char, c: string, rest: string)
    requires Reader(g, l) && IsBreak(b) && OneLine(c)
    ensures Vanishes(g, [b] + ("\"" + c), rest)
  {
    var quoted := Escape("") + ("\"" + c);
    ShortPlain(g, l, "", c, rest);
    BreakLast(g, l, "", b, quoted, rest);
    assert "" + ([b] + quoted) == [b] + ("\"" + c);
  }

  lemma Regrouped(a: string, b: string, more: string, x: string)
    ensures (a + (b + more)) + x == a + (b + (more + x))
  {
  }

  /** Whatever breaks it has, a text vanishes if its plain pieces do. */
  lemma {:induction false} LongTail(g: string -> seq<string>, l: string -> seq<string>, y: string, x: string, rest: string)
    requires Reader(g, l) && forall q :: NoWideBreak(q) ==> Vanishes(g, Escape(q) + x, rest)
    ensures Vanishes(g, Escape(y) + x, rest)
    decreases |y|
  {
    if !NoWideBreak(y) {
      var a, b, more := FirstWide(y);
      LongTail(g, l, more, x, rest);
      EscapeSplit(a, b, more);
      EscapeOneLine(a);
      assert Mute(l, a, "") && Escape(a) + "" == Escape(a);
      BreakLast(g, l, Escape(a), b, Escape(more) + x, rest);
      Regrouped(Escape(a), [b], Escape(more), x);
    }
  }

  lemma PlainEnd(g: string -> seq<string>, l: string -> seq<string>, q: string, x: string, rest: string)
    requires Reader(g, l) && NoWideBreak(q) && Closing(x) && OneLine(x)
    ensures Vanishes(g, Escape(q) + x, rest)
  {
    EscapeOneLine(q);
    assert Mute(l, q, x);
    LastLine(g, l, Escape(q) + x, rest);
  }

  lemma BrokenText(q: string, x: string, a: string, b: string, more: string, end: string)
    ensures q + (x + ((a + (b + more)) + end)) == (q + (x + a)) + (b + (more + end))
  {
  }

  /** The same when a short delta behind the text is broken itself. */
  lemma BrokenEnd(g: string -> seq<string>, l: string -> seq<string>, q: string, x: string, z: string, c: string, rest: string)
    requires Reader(g, l) && NoWideBreak(q) && Closing(x) && x != "" && OneLine(x)
    requires |z| <= 2 && OneLine(c) && !NoWideBreak(z)
    ensures Vanishes(g, Escape(q) + (x + (Escape(z) + ("\"" + c))), rest)
  {
    var a, b, more := FirstWide(z);
    EscapeOneLine(q);
    EscapeOneLine(a);
    assert Mute(l, q, x + Escape(a));
    ShortTail(g, l, more, c, rest);
    BreakLast(g, l, Escape(q) + (x + Escape(a)), b, Escape(more) + ("\"" + c), rest);
    EscapeSplit(a, b, more);
    BrokenText(Escape(q), x, Escape(a), [b], Escape(more), "\"" + c);
  }

  // ---------- The front of a broken event ----------

  lemma {:induction false} StripRightKeepsHead(s: string)
    requires s != "" && !IsSpace(s[0])
    ensures StripRight(s) != ""
  {
    if IsSpace(s[|s| - 1]) {
      StripRightKeepsHead(s[..|s| - 1]);
    }
  }

  /** The line up to the break holds no JSON text. */
  lemma FrontSilent(d: string, j: Json, p: string)
    requires ReadValue(d) == Some((j, "")) && p <= d && p != d && p != "" && p[0] == '{'
    ensures LineParts("data: " + p) == []
  {
    DataPrefix(p);
    FrontPayload(p);
    var payload := StripRight(p);
    LineOfPayload("data: " + p, payload);
    ObjectPayload(payload);
    ProperPrefixFails(d, j, payload);
  }

  lemma FrontPayload(p: string)
    requires p != "" && p[0] == '{'
    ensures Strip(" " + p) == StripRight(p) && StripRight(p) != "" && StripRight(p)[0] == '{'
  {
    BlankDropped(p);
    StripRightKeepsHead(p);
    assert StripRight(p) <= p;
  }

  lemma BlankDropped(p: string)
    requires p != "" && !IsSpace(p[0])
    ensures StripLeft(" " + p) == p
  {
    assert (" " + p)[1..] == p && StripLeft(p) == p;
  }

  /** The stream reader is one for which all this holds. */
  lemma StreamReader()
    ensures Reader(StreamParts, LineParts)
  {
    EmptyLine();
    forall a, b, more ensures Cut(StreamParts, LineParts, a, b, more) {
      if OneLine(a) && IsBreak(b) { BrokenLine(a, b, more); }
    }
    forall y, x ensures Mute(LineParts, y, x) {
      if Closing(x) { PieceSilent(y, x); }
    }
    forall z, c ensures MuteShort(LineParts, z, c) {
      if |z| <= 1 { ShortLine(z, c); }
    }
    forall d, j, p ensures MuteFront(LineParts, d, j, p) {
      if ReadValue(d) == Some((j, "")) && p <= d && p != d && p != "" && p[0] == '{' { FrontSilent(d, j, p); }
    }
  }

  lemma EventText(p: string, b: char, tail: string, rest: string)
    ensures Event(p + ([b] + tail)) + rest == ("data: " + p) + ([b] + (tail + ("\n\n" + rest)))
  {
  }

  lemma DataOneLine(p: string)
    requires OneLine(p)
    ensures OneLine("data: " + p)
  {
  }

  lemma BrokenEvent(g: string -> seq<string>, l: string -> seq<string>, d: string, j: Json, p: string, b: char, tail: string, rest: string)
    requires Reader(g, l) && ReadValue(d) == Some((j, "")) && d == p + ([b] + tail)
    requires OneLine(p) && p != "" && p[0] == '{' && IsBreak(b) && Vanishes(g, tail, rest)
    ensures g(Event(d) + rest) == g(rest)
  {
    EventText(p, b, tail, rest);
    DataOneLine(p);
    assert MuteFront(l, d, j, p) && Cut(g, l, "data: " + p, b, tail + ("\n\n" + rest));
  }

  // ---------- How an event's text is laid out ----------

  lemma ThreeStrings(a: string, b: string, c: string)
    ensures a + (b + c) == (a + b) + c
  {
  }

  lemma StringAppends(s: string, a: string, b: string)
    ensures WriteString(s, a + b) == WriteString(s, a) + b
  {
    ThreeStrings("\"", a, b);
    ThreeStrings(Escape(s), "\"" + a, b);
    ThreeStrings("\"", Escape(s) + ("\"" + a), b);
  }

  lemma SeparatedAppends(sep: char, style: Style, a: string, b: string)
    ensures Separated(sep, style, a + b) == Separated(sep, style, a) + b
  {
    if style.Compact? {
      ThreeStrings([sep], a, b);
    } else {
      ThreeStrings([' '], a, b);
      ThreeStrings([sep], [' '] + a, b);
    }
  }

  lemma {:induction false} WriteAppends(j: Json, style: Style, a: string, b: string)
    ensures Write(j, style, a + b) == Write(j, style, a) + b
    decreases j, 1
  {
    match j
    case JStr(s) => StringAppends(s, a, b);
    case JArr(items) =>
      if items == [] { assert "]" + (a + b) == ("]" + a) + b; } else { ItemsAppend(items, style, a, b); }
    case JObj(fields) =>
      if fields == [] { assert "}" + (a + b) == ("}" + a) + b; } else { FieldsAppend(fields, style, a, b); }
    case _ =>
  }

  lemma {:induction false} ItemsAppend(items: seq<Json>, style: Style, a: string, b: string)
    requires items != []
    ensures WriteItems(items, style, a + b) == WriteItems(items, style, a) + b
    decreases items, 0
  {
    if |items| == 1 {
      assert "]" + (a + b) == ("]" + a) + b;
      WriteAppends(items[0], style, "]" + a, b);
    } else {
      ItemsAppend(items[1..], style, a, b);
      SeparatedAppends(',', style, WriteItems(items[1..], style, a), b);
      WriteAppends(items[0], style, Separated(',', style, WriteItems(items[1..], style, a)), b);
    }
  }

  lemma {:induction false} FieldsAppend(fields: seq<Member>, style: Style, a: string, b: string)
    requires fields != []
    ensures WriteFields(fields, style, a + b) == WriteFields(fields, style, a) + b
    decreases fields, 0
  {
    var tail := if |fields| == 1 then "}" + a else Separated(',', style, WriteFields(fields[1..], style, a));
    if |fields| == 1 {
      assert "}" + (a + b) == ("}" + a) + b;
    } else {
      FieldsAppend(fields[1..], style, a, b);
      SeparatedAppends(',', style, WriteFields(fields[1..], style, a), b);
    }
    var value := Write(fields[0].value, style, tail);
    WriteAppends(fields[0].value, style, tail, b);
    SeparatedAppends(':', style, value, b);
    StringAppends(fields[0].key, Separated(':', style, value), b);
  }

  lemma OneLineConcat(a: string, b: string)
    requires OneLine(a) && OneLine(b)
    ensures OneLine(a + b)
  {
  }

  lemma SeparatedOneLine(sep: char, a: string)
    requires OneLine([sep]) && OneLine(a)
    ensures OneLine(Separated(sep, Spaced, a))
  {
    assert [sep][0] == sep;
  }

  /** A plain first member stands in front of the others on one line. */
  lemma FirstField(fields: seq<Member>, rest: string) returns (p: string)
    requires |fields| > 1 && NoWideBreak(fields[0].key) && Plain(fields[0].value)
    ensures WriteFields(fields, Spaced, rest) == p + WriteFields(fields[1..], Spaced, rest) && OneLine(p)
  {
    var more := WriteFields(fields[1..], Spaced, rest);
    var comma := Separated(',', Spaced, "");
    var value := Write(fields[0].value, Spaced, comma);
    p := WriteString(fields[0].key, Separated(':', Spaced, value));
    assert "" + more == more;
    SeparatedAppends(',', Spaced, "", more);
    WriteAppends(fields[0].value, Spaced, comma, more);
    SeparatedAppends(':', Spaced, value, more);
    StringAppends(fields[0].key, Separated(':', Spaced, value), more);
    SeparatedOneLine(',', "");
    WriteOneLine(fields[0].value, Spaced, comma);
    SeparatedOneLine(':', value);
    StringOneLine(fields[0].key, Separated(':', Spaced, value));
  }

  /** A text member stands between its opening quote and the rest. */
  lemma TextField(key: string, text: string, end: string)
    ensures WriteString(key, Separated(':', Spaced, WriteString(text, end)))
            == WriteString(key, Separated(':', Spaced, "\"")) + (Escape(text) + ("\"" + end))
  {
    var more := Escape(text) + ("\"" + end);
    SeparatedAppends(':', Spaced, "\"", more);
    StringAppends(key, Separated(':', Spaced, "\""), more);
  }

  lemma TextFieldOneLine(key: string)
    requires NoWideBreak(key)
    ensures OneLine(WriteString(key, Separated(':', Spaced, "\"")))
  {
    SeparatedOneLine(':', "\"");
    StringOneLine(key, Separated(':', Spaced, "\""));
  }

  function ChoicesField(delta: seq<Member>, finish: Json): seq<Member> {
    [Member("choices", JArr([Choice(delta, finish)]))]
  }

  /** The text of the choices, the last member of a payload. */
  function ChoicesText(delta: seq<Member>, finish: Json): string {
    WriteFields(ChoicesField(delta, finish), Spaced, "")
  }

  lemma ChoicesHead(delta: seq<Member>, finish: Json)
    ensures var w := ChoicesText(delta, finish); |w| >= 2 && w[0] == '"' && w[1] == 'c'
  {
    var more := "\"" + Separated(':', Spaced, Write(JArr([Choice(delta, finish)]), Spaced, "}" + ""));
    KeyHead("choices", more);
  }

  lemma KeyHead(key: string, more: string)
    requires key != "" && key[0] == 'c'
    ensures var w := "\"" + (Escape(key) + more); |w| >= 2 && w[0] == '"' && w[1] == 'c'
  {
    assert Escape(key) == "c" + Escape(key[1..]);
  }

  predicate PlainField(m: Member) {
    NoWideBreak(m.key) && Plain(m.value)
  }

  lemma ThreeFields(a: Member, b: Member, c: Member, d: Member, e: Member) returns (p: string)
    requires PlainField(a) && PlainField(b) && PlainField(c)
    ensures WriteFields([a, b, c, d, e], Spaced, "") == p + WriteFields([d, e], Spaced, "") && OneLine(p)
  {
    assert [a, b, c, d, e][1..] == [b, c, d, e] && [b, c, d, e][1..] == [c, d, e] && [c, d, e][1..] == [d, e];
    var p0 := FirstField([a, b, c, d, e], "");
    var p1 := FirstField([b, c, d, e], "");
    var p2 := FirstField([c, d, e], "");
    p := p0 + (p1 + p2);
    ThreePieces(p0, p1, p2, WriteFields([d, e], Spaced, ""));
  }

  lemma ThreePieces(p0: string, p1: string, p2: string, more: string)
    ensures p0 + (p1 + (p2 + more)) == (p0 + (p1 + p2)) + more
  {
  }

  lemma TwoFields(key: string, text: string, e: Member)
    ensures WriteFields([Member(key, JStr(text)), e], Spaced, "")
            == WriteString(key, Separated(':', Spaced, WriteString(text, Separated(',', Spaced, WriteFields([e], Spaced, "")))))
  {
    assert [Member(key, JStr(text)), e][1..] == [e];
  }

  lemma HeadFields(r: Reply)
    requires NoWideBreak(r.id)
    ensures PlainField(Member("id", JStr(r.id))) && PlainField(Member("object", JStr("chat.completion.chunk")))
    ensures PlainField(Member("created", JInt(r.created))) && NoWideBreak("model")
  {
    KindPlain();
  }

  lemma PayloadWritten(r: Reply, delta: seq<Member>, finish: Json)
    ensures Dumps(ChunkPayload(r, delta, finish), Spaced)
            == "{" + WriteFields([Member("id", JStr(r.id)), Member("object", JStr("chat.completion.chunk")),
                                  Member("created", JInt(r.created)), Member("model", JStr(r.model)),
                                  ChoicesField(delta, finish)[0]], Spaced, "")
  {
  }

  lemma TextThenField(key: string, text: string, e: Member)
    ensures WriteFields([Member(key, JStr(text)), e], Spaced, "")
            == WriteString(key, Separated(':', Spaced, "\"")) + (Escape(text) + ("\"" + Separated(',', Spaced, WriteFields([e], Spaced, ""))))
  {
    TwoFields(key, text, e);
    TextField(key, text, Separated(',', Spaced, WriteFields([e], Spaced, "")));
  }

  lemma FiveFields(a: Member, b: Member, c: Member, key: string, text: string, e: Member) returns (p: string)
    requires PlainField(a) && PlainField(b) && PlainField(c) && NoWideBreak(key)
    ensures OneLine(p) && p != "" && p[0] == '{'
    ensures "{" + WriteFields([a, b, c, Member(key, JStr(text)), e], Spaced, "")
            == p + (Escape(text) + ("\"" + Separated(',', Spaced, WriteFields([e], Spaced, ""))))
  {
    var front := ThreeFields(a, b, c, Member(key, JStr(text)), e);
    var opening := WriteString(key, Separated(':', Spaced, "\""));
    TextThenField(key, text, e);
    TextFieldOneLine(key);
    p := "{" + (front + opening);
    OneLineConcat(front, opening);
    BraceGlued(WriteFields([a, b, c, Member(key, JStr(text)), e], Spaced, ""), front, WriteFields([Member(key, JStr(text)), e], Spaced, ""),
               opening, Escape(text) + ("\"" + Separated(',', Spaced, WriteFields([e], Spaced, ""))));
  }

  lemma BraceGlued(whole: string, p: string, part: string, d: string, more: string)
    requires whole == p + part && part == d + more && OneLine(p + d)
    ensures "{" + whole == ("{" + (p + d)) + more && OneLine("{" + (p + d))
  {
    BracedPieces(p, d, more);
  }

  /** A payload is a plain front, the model's text, and the choices behind its closing quote. */
  lemma PayloadLayout(r: Reply, delta: seq<Member>, finish: Json) returns (a: string)
    requires NoWideBreak(r.id)
    ensures OneLine(a) && a != "" && a[0] == '{'
    ensures Dumps(ChunkPayload(r, delta, finish), Spaced)
            == a + (Escape(r.model) + ("\"" + Separated(',', Spaced, ChoicesText(delta, finish))))
  {
    HeadFields(r);
    PayloadWritten(r, delta, finish);
    a := FiveFields(Member("id", JStr(r.id)), Member("object", JStr("chat.completion.chunk")), Member("created", JInt(r.created)),
                    "model", r.model, ChoicesField(delta, finish)[0]);
  }

  lemma BracedPieces(p: string, key: string, more: string)
    ensures "{" + (p + (key + more)) == ("{" + (p + key)) + more
  {
  }

  lemma ClosingComma(delta: seq<Member>, finish: Json)
    ensures Closing("\"" + Separated(',', Spaced, ChoicesText(delta, finish)))
  {
    ChoicesHead(delta, finish);
  }

  lemma ChoicesOneLine(delta: seq<Member>, finish: Json)
    requires Plain(JObj(delta)) && Plain(finish)
    ensures OneLine("\"" + Separated(',', Spaced, ChoicesText(delta, finish)))
  {
    ChoicePlain(delta, finish);
    OnePlain(Choice(delta, finish));
    ChoicesKeyPlain();
    var f := ChoicesField(delta, finish);
    assert f[0].value == JArr([Choice(delta, finish)]);
    WriteFieldsOneLine(f, Spaced, "");
    SeparatedOneLine(',', ChoicesText(delta, finish));
  }

  lemma ChoicesKeyPlain()
    ensures NoWideBreak("choices") && NoWideBreak("index") && NoWideBreak("delta") && NoWideBreak("content")
  {
  }

  function ContentField(text: string): seq<Member> {
    [Member("content", JStr(text))]
  }

  function FinishMember(): Member {
    Member("finish_reason", JNull)
  }

  function FinishField(): seq<Member> {
    [FinishMember()]
  }

  /** The last member of a choice and what follows it. */
  function FinishText(end: string): string {
    Separated(',', Spaced, WriteFields(FinishField(), Spaced, end))
  }

  lemma FinishPlain()
    ensures PlainField(FinishMember())
  {
  }

  lemma LastFieldOneLine(m: Member, end: string)
    requires PlainField(m) && OneLine(end)
    ensures OneLine(WriteFields([m], Spaced, end))
  {
    var f := [m];
    assert f[0] == m;
    WriteFieldsOneLine(f, Spaced, end);
  }

  lemma FinishOneLine(end: string)
    requires OneLine(end)
    ensures OneLine(FinishText(end))
  {
    FinishPlain();
    CommaField(FinishMember(), end);
  }

  lemma CommaField(m: Member, end: string)
    requires PlainField(m) && OneLine(end)
    ensures OneLine(Separated(',', Spaced, WriteFields([m], Spaced, end)))
  {
    LastFieldOneLine(m, end);
    SeparatedOneLine(',', WriteFields([m], Spaced, end));
  }

  lemma OneField(m: Member, end: string)
    ensures Write(JObj([m]), Spaced, end) == "{" + WriteString(m.key, Separated(':', Spaced, Write(m.value, Spaced, "}" + end)))
  {
  }

  /** The object `{"content": …}` and what follows it. */
  lemma ContentLayout(text: string, end: string)
    ensures Write(JObj(ContentField(text)), Spaced, end)
            == "{" + (WriteString("content", Separated(':', Spaced, "\"")) + (Escape(text) + ("\"" + ("}" + end))))
  {
    OneField(ContentField(text)[0], end);
    TextField("content", text, "}" + end);
  }

  lemma DeltaFields(key: string, value: Json, end: string)
    ensures WriteFields([Member(key, value)] + FinishField(), Spaced, end)
            == WriteString(key, Separated(':', Spaced, Write(value, Spaced, FinishText(end))))
  {
    var f := [Member(key, value)] + FinishField();
    assert f[1..] == FinishField();
  }

  lemma Wrapped(key: string, front: string, more: string)
    ensures WriteString(key, Separated(':', Spaced, "{" + (front + more)))
            == WriteString(key, Separated(':', Spaced, "{" + front)) + more
  {
    assert "{" + (front + more) == ("{" + front) + more;
    SeparatedAppends(':', Spaced, "{" + front, more);
    StringAppends(key, Separated(':', Spaced, "{" + front), more);
  }

  lemma Substituted(key: string, value: string, front: string, more: string)
    requires value == "{" + (front + more)
    ensures WriteString(key, Separated(':', Spaced, value)) == WriteString(key, Separated(':', Spaced, "{" + front)) + more
  {
    Wrapped(key, front, more);
  }

  lemma DeltaWritten(text: string, end: string, after: string)
    requires after == FinishText(end)
    ensures WriteFields([Member("delta", JObj(ContentField(text)))] + FinishField(), Spaced, end)
            == DeltaFront() + (Escape(text) + ("\"" + ("}" + after)))
  {
    DeltaFields("delta", JObj(ContentField(text)), end);
    ContentLayout(text, after);
    Substituted("delta", Write(JObj(ContentField(text)), Spaced, after), WriteString("content", Separated(':', Spaced, "\"")),
                Escape(text) + ("\"" + ("}" + after)));
  }

  lemma BraceOneLine(s: string)
    requires OneLine(s)
    ensures OneLine("}" + s)
  {
  }

  /** The delta member of a choice and what follows it. */
  lemma DeltaLayout(text: string, end: string) returns (front: string, c: string)
    requires OneLine(end)
    ensures OneLine(front) && OneLine(c)
    ensures WriteFields([Member("delta", JObj(ContentField(text)))] + FinishField(), Spaced, end) == front + (Escape(text) + ("\"" + c))
  {
    var after := FinishText(end);
    front, c := DeltaFront(), "}" + after;
    DeltaFrontOneLine();
    FinishOneLine(end);
    BraceOneLine(after);
    DeltaWritten(text, end, after);
  }

  lemma FirstOfThree(a: Member, b: Member, c: Member, end: string) returns (p: string)
    requires PlainField(a)
    ensures OneLine(p) && WriteFields([a, b, c], Spaced, end) == p + WriteFields([b] + [c], Spaced, end)
  {
    p := FirstField([a, b, c], end);
    assert [a, b, c][1..] == [b] + [c];
  }

  lemma ChoiceFields(text: string, end: string) returns (p: string)
    ensures OneLine(p)
    ensures WriteFields(Choice(ContentField(text), JNull).fields, Spaced, end)
            == p + WriteFields([Member("delta", JObj(ContentField(text)))] + FinishField(), Spaced, end)
  {
    ChoicesKeyPlain();
    p := FirstOfThree(Member("index", JInt(0)), Member("delta", JObj(ContentField(text))), Member("finish_reason", JNull), end);
  }

  function DeltaFront(): string {
    WriteString("delta", Separated(':', Spaced, "{" + WriteString("content", Separated(':', Spaced, "\""))))
  }

  lemma DeltaFrontOneLine()
    ensures OneLine(DeltaFront())
  {
    ChoicesKeyPlain();
    TextFieldOneLine("content");
    var key := WriteString("content", Separated(':', Spaced, "\""));
    SeparatedOneLine(':', "{" + key);
    StringOneLine("delta", Separated(':', Spaced, "{" + key));
  }

  lemma OneItem(j: Json, end: string)
    ensures Write(JArr([j]), Spaced, end) == "[" + Write(j, Spaced, "]" + end)
  {
  }

  lemma ChoicesWritten(delta: seq<Member>, finish: Json)
    ensures ChoicesText(delta, finish)
            == WriteString("choices", Separated(':', Spaced,
                 "[" + ("{" + WriteFields(Choice(delta, finish).fields, Spaced, ChoicesEnd()))))
  {
    OneItem(Choice(delta, finish), "}" + "");
  }

  function ChoicesEnd(): string {
    "]" + ("}" + "")
  }

  lemma Bracketed(front: string, more: string)
    ensures "[" + ("{" + (front + more)) == ("[" + ("{" + front)) + more
  {
  }

  lemma ChoicesFront(front: string, more: string) returns (b: string)
    requires OneLine(front)
    ensures WriteString("choices", Separated(':', Spaced, "[" + ("{" + (front + more)))) == b + more
    ensures OneLine(b) && |b| >= 2 && b[0] == '"' && b[1] == 'c'
  {
    var opening := "[" + ("{" + front);
    Bracketed(front, more);
    SeparatedAppends(':', Spaced, opening, more);
    StringAppends("choices", Separated(':', Spaced, opening), more);
    b := WriteString("choices", Separated(':', Spaced, opening));
    ChoicesFrontOneLine(front);
    KeyHead("choices", "\"" + Separated(':', Spaced, opening));
  }

  lemma ChoicesFrontOneLine(front: string)
    requires OneLine(front)
    ensures OneLine(WriteString("choices", Separated(':', Spaced, "[" + ("{" + front))))
  {
    ChoicesKeyPlain();
    SeparatedOneLine(':', "[" + ("{" + front));
    StringOneLine("choices", Separated(':', Spaced, "[" + ("{" + front)));
  }

  lemma Glued(whole: string, p: string, part: string, d: string, more: string)
    requires whole == p + part && part == d + more
    ensures whole == (p + d) + more
  {
  }

  lemma ChoiceLayout(text: string, end: string) returns (front: string, c: string)
    requires OneLine(end)
    ensures OneLine(front) && OneLine(c)
    ensures WriteFields(Choice(ContentField(text), JNull).fields, Spaced, end) == front + (Escape(text) + ("\"" + c))
  {
    var p := ChoiceFields(text, end);
    var d;
    d, c := DeltaLayout(text, end);
    front := p + d;
    OneLineConcat(p, d);
    Glued(WriteFields(Choice(ContentField(text), JNull).fields, Spaced, end), p,
          WriteFields([Member("delta", JObj(ContentField(text)))] + FinishField(), Spaced, end), d, Escape(text) + ("\"" + c));
  }

  /** The choices of a delta event are a plain front, the delta's text, and a plain end. */
  lemma ChoicesLayout(text: string) returns (b: string, c: string)
    ensures OneLine(b) && OneLine(c) && |b| >= 2 && b[0] == '"' && b[1] == 'c'
    ensures ChoicesText(ContentField(text), JNull) == b + (Escape(text) + ("\"" + c))
  {
    var front;
    ChoicesWritten(ContentField(text), JNull);
    front, c := ChoiceLayout(text, ChoicesEnd());
    b := ChoicesFront(front, Escape(text) + ("\"" + c));
  }

  // ---------- Broken events ----------

  lemma PayloadReads(r: Reply, delta: seq<Member>, finish: Json)
    requires Unambiguous(JObj(delta)) && Unambiguous(finish)
    ensures var p := ChunkPayload(r, delta, finish); ReadValue(Dumps(p, Spaced)) == Some((p, ""))
  {
    PayloadUnambiguous(r, delta, finish);
    ReadWritten(ChunkPayload(r, delta, finish), Spaced, "");
  }

  lemma BreakInside(a: string, m: string, b: string, more: string, x: string)
    ensures a + ((m + (b + more)) + x) == (a + m) + (b + (more + x))
  {
  }

  /** A payload, cut in two at the first wide break of the model name. */
  lemma ModelCut(r: Reply, delta: seq<Member>, finish: Json) returns (p: string, w: char, more: string)
    requires NoWideBreak(r.id) && !NoWideBreak(r.model)
    ensures OneLine(p) && p != "" && p[0] == '{' && IsWide(w)
    ensures Dumps(ChunkPayload(r, delta, finish), Spaced)
            == p + ([w] + (Escape(more) + ("\"" + Separated(',', Spaced, ChoicesText(delta, finish)))))
  {
    var a := PayloadLayout(r, delta, finish);
    var m;
    m, w, more := FirstWide(r.model);
    EscapeSplit(m, w, more);
    EscapeOneLine(m);
    p := a + Escape(m);
    BreakInside(a, Escape(m), [w], Escape(more), "\"" + Separated(',', Spaced, ChoicesText(delta, finish)));
  }

  /** A break in the model name silences an event whose choices vanish behind every plain piece of the name. */
  lemma ModelBroken(g: string -> seq<string>, l: string -> seq<string>, r: Reply, delta: seq<Member>, finish: Json, rest: string)
    requires Reader(g, l) && NoWideBreak(r.id) && !NoWideBreak(r.model) && Unambiguous(JObj(delta)) && Unambiguous(finish)
    requires var x := "\"" + Separated(',', Spaced, ChoicesText(delta, finish));
             forall q :: NoWideBreak(q) ==> Vanishes(g, Escape(q) + x, rest)
    ensures g(Event(Dumps(ChunkPayload(r, delta, finish), Spaced)) + rest) == g(rest)
  {
    var x := "\"" + Separated(',', Spaced, ChoicesText(delta, finish));
    var p, w, more := ModelCut(r, delta, finish);
    LongTail(g, l, more, x, rest);
    PayloadReads(r, delta, finish);
    BrokenEvent(g, l, Dumps(ChunkPayload(r, delta, finish), Spaced), ChunkPayload(r, delta, finish), p, w, Escape(more) + x, rest);
  }

  lemma StopPlain()
    ensures Plain(JObj([])) && Plain(JStr("stop")) && Unambiguous(JObj([]))
  {
  }

  lemma PlainChoicesBehind(g: string -> seq<string>, l: string -> seq<string>, delta: seq<Member>, finish: Json, q: string, rest: string)
    requires Reader(g, l) && NoWideBreak(q) && Plain(JObj(delta)) && Plain(finish)
    ensures Vanishes(g, Escape(q) + ("\"" + Separated(',', Spaced, ChoicesText(delta, finish))), rest)
  {
    ClosingComma(delta, finish);
    ChoicesOneLine(delta, finish);
    PlainEnd(g, l, q, "\"" + Separated(',', Spaced, ChoicesText(delta, finish)), rest);
  }

  lemma FinalBroken(g: string -> seq<string>, l: string -> seq<string>, r: Reply, rest: string)
    requires Reader(g, l) && NoWideBreak(r.id) && !NoWideBreak(r.model)
    ensures g(Event(Dumps(ChunkPayload(r, [], JStr("stop")), Spaced)) + rest) == g(rest)
  {
    StopPlain();
    forall q | NoWideBreak(q)
      ensures Vanishes(g, Escape(q) + ("\"" + Separated(',', Spaced, ChoicesText([], JStr("stop")))), rest)
    {
      PlainChoicesBehind(g, l, [], JStr("stop"), q, rest);
    }
    ModelBroken(g, l, r, [], JStr("stop"), rest);
  }

  lemma ContentPlain(text: string)
    requires NoWideBreak(text)
    ensures Plain(JObj(ContentField(text)))
  {
    ChoicesKeyPlain();
    assert ContentField(text)[0].value == JStr(text);
  }

  function DeltaChoices(text: string): string {
    "\"" + Separated(',', Spaced, ChoicesText(ContentField(text), JNull))
  }

  lemma PlainDeltaBehind(g: string -> seq<string>, l: string -> seq<string>, text: string, q: string, rest: string)
    requires Reader(g, l) && NoWideBreak(q) && NoWideBreak(text)
    ensures Vanishes(g, Escape(q) + DeltaChoices(text), rest)
  {
    ContentPlain(text);
    PlainChoicesBehind(g, l, ContentField(text), JNull, q, rest);
  }

  lemma QuoteComma(b: string, more: string)
    ensures "\"" + Separated(',', Spaced, b + more) == ("\"" + Separated(',', Spaced, b)) + more
  {
    SeparatedAppends(',', Spaced, b, more);
    ThreeStrings("\"", Separated(',', Spaced, b), more);
  }

  lemma QuoteCommaCloses(b: string)
    requires OneLine(b) && |b| >= 2 && b[0] == '"' && b[1] == 'c'
    ensures var front := "\"" + Separated(',', Spaced, b); OneLine(front) && Closing(front) && front != ""
  {
    SeparatedOneLine(',', b);
  }

  /** The choices of a delta event: a plain front that shows the key, the delta's text, a plain end. */
  lemma DeltaChoicesLayout(text: string) returns (front: string, c: string)
    ensures OneLine(front) && OneLine(c) && Closing(front) && front != ""
    ensures DeltaChoices(text) == front + (Escape(text) + ("\"" + c))
  {
    var b;
    b, c := ChoicesLayout(text);
    front := "\"" + Separated(',', Spaced, b);
    QuoteComma(b, Escape(text) + ("\"" + c));
    QuoteCommaCloses(b);
  }

  /** The choices of a delta, behind a plain piece of the model name, contribute nothing. */
  lemma DeltaBehindModel(g: string -> seq<string>, l: string -> seq<string>, text: string, q: string, rest: string)
    requires Reader(g, l) && NoWideBreak(q) && |text| <= 2
    ensures Vanishes(g, Escape(q) + DeltaChoices(text), rest)
  {
    if NoWideBreak(text) {
      PlainDeltaBehind(g, l, text, q, rest);
    } else {
      var front, c := DeltaChoicesLayout(text);
      BrokenEnd(g, l, q, front, text, c, rest);
    }
  }

  lemma DeltaUnambiguous(text: string)
    ensures Unambiguous(JObj(ContentField(text)))
  {
  }

  lemma DeltaModelBroken(g: string -> seq<string>, l: string -> seq<string>, r: Reply, text: string, rest: string)
    requires Reader(g, l) && NoWideBreak(r.id) && |text| <= 2 && !NoWideBreak(r.model)
    ensures g(DeltaEvent(r, text) + rest) == g(rest)
  {
    forall q | NoWideBreak(q)
      ensures Vanishes(g, Escape(q) + DeltaChoices(text), rest)
    {
      DeltaBehindModel(g, l, text, q, rest);
    }
    DeltaUnambiguous(text);
    ModelBroken(g, l, r, ContentField(text), JNull, rest);
  }

  lemma DeltaBreakInside(a: string, m: string, comma: string, t: string, b: string, more: string, end: string)
    ensures a + (m + (comma + ((t + (b + more)) + end))) == (a + (m + (comma + t))) + (b + (more + end))
  {
  }

  lemma JoinedFront(a: string, model: string, comma: string, m: string) returns (p: string)
    requires OneLine(a) && a != "" && a[0] == '{' && NoWideBreak(model) && OneLine(comma) && NoWideBreak(m)
    ensures p == a + (Escape(model) + (comma + Escape(m))) && OneLine(p) && p != "" && p[0] == '{'
  {
    EscapeOneLine(model);
    EscapeOneLine(m);
    p := a + (Escape(model) + (comma + Escape(m)));
  }

  /** A delta event, cut in two at the first wide break of its text. */
  lemma DeltaCut(r: Reply, text: string) returns (p: string, w: char, more: string, c: string)
    requires NoWideBreak(r.id) && NoWideBreak(r.model) && !NoWideBreak(text)
    ensures OneLine(p) && p != "" && p[0] == '{' && IsWide(w) && |more| < |text| && OneLine(c)
    ensures Dumps(ChunkPayload(r, ContentField(text), JNull), Spaced) == p + ([w] + (Escape(more) + ("\"" + c)))
  {
    var a := PayloadLayout(r, ContentField(text), JNull);
    var front, m;
    front, c := DeltaChoicesLayout(text);
    m, w, more := FirstWide(text);
    EscapeSplit(m, w, more);
    p := JoinedFront(a, r.model, front, m);
    DeltaBreakInside(a, Escape(r.model), front, Escape(m), [w], Escape(more), "\"" + c);
  }

  lemma DeltaBroken(g: string -> seq<string>, l: string -> seq<string>, r: Reply, text: string, rest: string)
    requires Reader(g, l) && NoWideBreak(r.id) && NoWideBreak(r.model) && |text| <= 2 && !NoWideBreak(text)
    ensures g(DeltaEvent(r, text) + rest) == g(rest)
  {
    var p, w, more, c := DeltaCut(r, text);
    ShortTail(g, l, more, c, rest);
    DeltaUnambiguous(text);
    PayloadReads(r, ContentField(text), JNull);
    BrokenEvent(g, l, Dumps(ChunkPayload(r, ContentField(text), JNull), Spaced), ChunkPayload(r, ContentField(text), JNull), p, w,
                Escape(more) + ("\"" + c), rest);
  }

  /** An event with a wide break in its delta or its model name is lost altogether. */
  lemma DeltaSilent(g: string -> seq<string>, l: string -> seq<string>, r: Reply, text: string, rest: string)
    requires Reader(g, l) && NoWideBreak(r.id) && |text| <= 2 && !(NoWideBreak(r.model) && NoWideBreak(text))
    ensures g(DeltaEvent(r, text) + rest) == g(rest)
  {
    if NoWideBreak(r.model) {
      DeltaBroken(g, l, r, text, rest);
    } else {
      DeltaModelBroken(g, l, r, text, rest);
    }
  }

  // ---------- No carriage return or line feed is written ----------

  predicate IsLineEnd(c: char) {
    c == '\r' || c == '\n'
  }

  lemma {:induction false} EscapeWithout(s: string, c: char)
    requires IsLineEnd(c)
    ensures c !in Escape(s)
  {
    if s != "" {
      EscapeCharWithout(s[0], c);
      EscapeWithout(s[1..], c);
    }
  }

  lemma EscapeCharWithout(e: char, c: char)
    requires IsLineEnd(c)
    ensures c !in EscapeChar(e)
  {
    if e < ' ' {
      HexIsPlain(e as int / 16);
      HexIsPlain(e as int % 16);
    }
  }

  lemma {:induction false} WriteWithout(j: Json, style: Style, rest: string, c: char)
    requires IsLineEnd(c) && c !in rest
    ensures c !in Write(j, style, rest)
    decreases j, 1
  {
    match j
    case JInt(n) => IntTextOneLine(n); assert forall i :: 0 <= i < |IntText(n)| ==> IntText(n)[i] != c;
    case JStr(s) => EscapeWithout(s, c);
    case JArr(items) =>
      if items != [] { ItemsWithout(items, style, rest, c); }
    case JObj(fields) =>
      if fields != [] { FieldsWithout(fields, style, rest, c); }
    case _ =>
  }

  lemma {:induction false} ItemsWithout(items: seq<Json>, style: Style, rest: string, c: char)
    requires items != [] && IsLineEnd(c) && c !in rest
    ensures c !in WriteItems(items, style, rest)
    decreases items, 0
  {
    if |items| == 1 {
      WriteWithout(items[0], style, "]" + rest, c);
    } else {
      ItemsWithout(items[1..], style, rest, c);
      WriteWithout(items[0], style, Separated(',', style, WriteItems(items[1..], style, rest)), c);
    }
  }

  lemma {:induction false} FieldsWithout(fields: seq<Member>, style: Style, rest: string, c: char)
    requires fields != [] && IsLineEnd(c) && c !in rest
    ensures c !in WriteFields(fields, style, rest)
    decreases fields, 0
  {
    if |fields| > 1 {
      FieldsWithout(fields[1..], style, rest, c);
    }
    var tail := if |fields| == 1 then "}" + rest else Separated(',', style, WriteFields(fields[1..], style, rest));
    WriteWithout(fields[0].value, style, tail, c);
    EscapeWithout(fields[0].key, c);
  }

  lemma EventNoCr(j: Json)
    ensures OnlyLineFeeds(Event(Dumps(j, Spaced)))
  {
    WriteWithout(j, Spaced, "", '\r');
  }

  // ---------- Exactly when the stream reads back ----------

  /** Whether a delta comes through. */
  predicate Arrives(r: Reply, delta: string) {
    NoWideBreak(r.model) && NoWideBreak(delta)
  }

  /** The deltas that come through. */
  function Kept(r: Reply, deltas: seq<string>): seq<string> {
    if deltas == [] then [] else (if Arrives(r, deltas[0]) then [deltas[0]] else []) + Kept(r, deltas[1..])
  }

  lemma OneDelta(r: Reply, delta: string, rest: string)
    requires NoWideBreak(r.id) && |delta| <= 2
    ensures StreamParts(DeltaEvent(r, delta) + rest) == (if Arrives(r, delta) then [delta] else []) + StreamParts(rest)
  {
    if Arrives(r, delta) {
      DeltaParts(r, delta, rest);
    } else {
      StreamReader();
      DeltaSilent(StreamParts, LineParts, r, delta, rest);
    }
  }

  /** What one delta adds, for a reader of which no more is known. */
  ghost predicate Adds(g: string -> seq<string>, r: Reply, delta: string, rest: string) {
    g(DeltaEvent(r, delta) + rest) == (if Arrives(r, delta) then [delta] else []) + g(rest)
  }

  lemma {:induction false} AllDeltas(g: string -> seq<string>, r: Reply, deltas: seq<string>, rest: string)
    requires forall i, tail :: 0 <= i < |deltas| ==> Adds(g, r, deltas[i], tail)
    ensures g(Concat(DeltaEvents(r, deltas)) + rest) == Kept(r, deltas) + g(rest)
  {
    if deltas == [] {
      assert "" + rest == rest;
    } else {
      forall i, tail | 0 <= i < |deltas[1..]|
        ensures Adds(g, r, deltas[1..][i], tail)
      {
        assert Adds(g, r, deltas[i + 1], tail);
      }
      AllDeltas(g, r, deltas[1..], rest);
      var more := Concat(DeltaEvents(r, deltas[1..]));
      assert Adds(g, r, deltas[0], more + rest);
      ThreeStrings(DeltaEvent(r, deltas[0]), more, rest);
      assert Concat(DeltaEvents(r, deltas)) == DeltaEvent(r, deltas[0]) + more by {
        assert DeltaEvents(r, deltas)[1..] == DeltaEvents(r, deltas[1..]);
      }
    }
  }

  lemma DeltasKept(r: Reply, deltas: seq<string>, rest: string)
    requires NoWideBreak(r.id) && forall i :: 0 <= i < |deltas| ==> |deltas[i]| <= 2
    ensures StreamParts(Concat(DeltaEvents(r, deltas)) + rest) == Kept(r, deltas) + StreamParts(rest)
  {
    forall i, tail | 0 <= i < |deltas|
      ensures Adds(StreamParts, r, deltas[i], tail)
    {
      OneDelta(r, deltas[i], tail);
    }
    AllDeltas(StreamParts, r, deltas, rest);
  }

  lemma {:induction false} DeltasNoCr(r: Reply, deltas: seq<string>)
    ensures OnlyLineFeeds(Concat(DeltaEvents(r, deltas)))
  {
    if deltas != [] {
      EventNoCr(ChunkPayload(r, [Member("content", JStr(deltas[0]))], JNull));
      DeltasNoCr(r, deltas[1..]);
      assert DeltaEvents(r, deltas)[1..] == DeltaEvents(r, deltas[1..]);
    }
  }

  lemma {:induction false} DeltasShort(content: string)
    ensures forall i :: 0 <= i < |Deltas(content)| ==> 1 <= |Deltas(content)[i]| <= 2
    decreases |content|
  {
    if content != "" {
      DeltasShort(content[Min(2, |content|)..]);
    }
  }

  lemma FinalSilent(r: Reply, done: string)
    requires NoWideBreak(r.id)
    ensures StreamParts(Event(Dumps(ChunkPayload(r, [], JStr("stop")), Spaced)) + done) == StreamParts(done)
  {
    if NoWideBreak(r.model) {
      NoDelta(r, done);
    } else {
      StreamReader();
      FinalBroken(StreamParts, LineParts, r, done);
    }
  }

  /** What is read of the stream is the deltas that come through. */
  lemma StreamKept(r: Reply, content: string, mark: string)
    requires NoWideBreak(r.id) && DoneMark(mark)
    ensures var final := Event(Dumps(ChunkPayload(r, [], JStr("stop")), Spaced));
            MessageContent(Concat(DeltaEvents(r, Deltas(content)) + [final, Event(mark)])) == Concat(Kept(r, Deltas(content)))
  {
    var deltas := Deltas(content);
    var final, done := Event(Dumps(ChunkPayload(r, [], JStr("stop")), Spaced)), Event(mark);
    DoneParts(mark);
    DeltasShort(content);
    DeltasNoCr(r, deltas);
    EventNoCr(ChunkPayload(r, [], JStr("stop")));
    StreamText(DeltaEvents(r, deltas), final, done);
    KeptWhole(r, deltas, final, done);
    WholeStream(Concat(DeltaEvents(r, deltas) + [final, done]), Kept(r, deltas));
  }

  lemma KeptWhole(r: Reply, deltas: seq<string>, final: string, done: string)
    requires NoWideBreak(r.id) && forall i :: 0 <= i < |deltas| ==> |deltas[i]| <= 2
    requires final == Event(Dumps(ChunkPayload(r, [], JStr("stop")), Spaced)) && SilentStream(done)
    ensures StreamParts(Concat(DeltaEvents(r, deltas)) + (final + done)) == Kept(r, deltas)
  {
    DeltasKept(r, deltas, final + done);
    FinalSilent(r, done);
  }

  lemma {:induction false} KeptLength(r: Reply, deltas: seq<string>)
    requires forall i :: 0 <= i < |deltas| ==> deltas[i] != ""
    ensures |Concat(Kept(r, deltas))| <= |Concat(deltas)|
    ensures (forall i :: 0 <= i < |deltas| ==> Arrives(r, deltas[i])) ==> Kept(r, deltas) == deltas
    ensures |Concat(Kept(r, deltas))| == |Concat(deltas)| ==> forall i :: 0 <= i < |deltas| ==> Arrives(r, deltas[i])
  {
    if deltas != [] {
      KeptLength(r, deltas[1..]);
      if Arrives(r, deltas[0]) {
        assert ([deltas[0]] + Kept(r, deltas[1..]))[1..] == Kept(r, deltas[1..]);
        assert deltas == [deltas[0]] + deltas[1..];
      } else {
        assert [] + Kept(r, deltas[1..]) == Kept(r, deltas[1..]);
      }
    }
  }

  lemma {:induction false} ConcatPlain(deltas: seq<string>)
    ensures NoWideBreak(Concat(deltas)) <==> forall i :: 0 <= i < |deltas| ==> NoWideBreak(deltas[i])
  {
    if deltas != [] {
      ConcatPlain(deltas[1..]);
      PlainConcat(deltas[0], Concat(deltas[1..]));
      assert (forall i :: 0 <= i < |deltas| ==> NoWideBreak(deltas[i]))
        <==> (NoWideBreak(deltas[0]) && forall i :: 0 <= i < |deltas[1..]| ==> NoWideBreak(deltas[1..][i])) by {
        assert forall i :: 1 <= i < |deltas| ==> deltas[i] == deltas[1..][i - 1];
      }
    }
  }

  lemma PlainConcat(a: string, b: string)
    ensures NoWideBreak(a + b) <==> NoWideBreak(a) && NoWideBreak(b)
  {
    if NoWideBreak(a + b) {
      assert forall i :: 0 <= i < |a| ==> a[i] == (a + b)[i];
      assert forall i :: 0 <= i < |b| ==> b[i] == (a + b)[|a| + i];
    }
  }

  /**
  The whole stand-in stream reads back as its content if and only if the content is empty, or neither the
  content nor the model name holds U+0085, U+2028 or U+2029; the id, which the relay makes itself, is plain.
  */
  lemma RoundTripExact(r: Reply, content: string)
    requires NoWideBreak(r.id)
    ensures MessageContent(Concat(FakeStream(r, content))) == content
            <==> content == "" || (NoWideBreak(r.model) && NoWideBreak(content))
  {
    var deltas := Deltas(content);
    StreamKept(r, content, "[DONE]");
    DeltasConcat(content);
    DeltasShort(content);
    KeptLength(r, deltas);
    ConcatPlain(deltas);
  }
}
