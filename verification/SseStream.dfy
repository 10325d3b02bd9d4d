/**
The stand-in event stream that the relay sends for a blocked request, the extraction that the archive runs
on a recorded stream, and the round trip between them. The wire format is that of section 9.2.6 of the
WHATWG HTML standard with JSON payloads.
*/
module SseStream {
  import opened Options
  import opened Json
  import opened Text

  // ---------- Producing ----------

  function Min(a: nat, b: nat): nat {
    if a < b then a else b
  }

  /** The slices of two characters that `_stream_fake_chunks` sends. */
  function Deltas(content: string): seq<string> {
    if content == "" then [] else [content[..Min(2, |content|)]] + Deltas(content[Min(2, |content|)..])
  }

  /** What every event of one reply shares. */
  datatype Reply = Reply(id: string, created: int, model: string)

  function ChunkPayload(r: Reply, delta: seq<Member>, finish: Json): Json {
    JObj([
      Member("id", JStr(r.id)),
      Member("object", JStr("chat.completion.chunk")),
      Member("created", JInt(r.created)),
      Member("model", JStr(r.model)),
      Member("choices", JArr([Choice(delta, finish)]))])
  }

  function Choice(delta: seq<Member>, finish: Json): Json {
    JObj([Member("index", JInt(0)), Member("delta", JObj(delta)), Member("finish_reason", finish)])
  }

  function Event(data: string): string {
    "data: " + (data + "\n\n")
  }

  function DeltaEvent(r: Reply, delta: string): string {
    Event(Dumps(ChunkPayload(r, [Member("content", JStr(delta))], JNull), Spaced))
  }

  function DeltaEvents(r: Reply, deltas: seq<string>): seq<string> {
    if deltas == [] then [] else [DeltaEvent(r, deltas[0])] + DeltaEvents(r, deltas[1..])
  }

  /** `_stream_fake_chunks`: the events in order. */
  function FakeStream(r: Reply, content: string): seq<string> {
    DeltaEvents(r, Deltas(content)) + [Event(Dumps(ChunkPayload(r, [], JStr("stop")), Spaced)), Event("[DONE]")]
  }

  // ---------- Extracting ----------

  /** Where `splitlines` breaks a text that holds no carriage return. */
  predicate IsBreak(c: char) {
    c == '\n' || c == '\U{b}' || c == '\U{c}' || '\U{1c}' <= c <= '\U{1e}' || c == '\U{85}' || c == '\U{2028}' || c == '\U{2029}'
  }

  function SplitLines(s: string): (lines: seq<string>)
    ensures s != "" ==> lines != []
  {
    if s == "" then []
    else if IsBreak(s[0]) then [""] + SplitLines(s[1..])
    else
      var rest := SplitLines(s[1..]);
      if rest == [] then [[s[0]]] else [[s[0]] + rest[0]] + rest[1..]
  }

  function TextMember(j: Option<Json>, key: string): seq<string> {
    if j.Some? && j.value.JObj? then
      var r := Get(j.value.fields, key);
      if r.Some? && r.value.JStr? then [r.value.s] else []
    else []
  }

  function ChoiceParts(choice: Json): seq<string> {
    if choice.JObj? then
      TextMember(Get(choice.fields, "delta"), "content") + TextMember(Get(choice.fields, "message"), "content")
    else []
  }

  function ChoicesParts(choices: seq<Json>): seq<string> {
    if choices == [] then [] else ChoicesParts(choices[..|choices| - 1]) + ChoiceParts(choices[|choices| - 1])
  }

  /** What a payload contributes; `None` is one that does not parse. */
  function DataParts(data: Option<Json>): seq<string> {
    if data.None? || !data.value.JObj? then []
    else
      var choices := Get(data.value.fields, "choices");
      if choices.Some? && choices.value.JArr? then ChoicesParts(choices.value.items) else []
  }

  function PayloadParts(payload: string): seq<string> {
    if payload == "" || payload == "[DONE]" then [] else DataParts(Loads(payload))
  }

  /** What one line contributes. */
  function LineParts(line: string): seq<string> {
    if "data:" <= line then PayloadParts(Strip(line[5..])) else []
  }

  function FlatMap(f: string -> seq<string>, lines: seq<string>): seq<string> {
    if lines == [] then [] else f(lines[0]) + FlatMap(f, lines[1..])
  }

  /** What a recorded stream contributes, line by line. */
  function StreamParts(raw: string): seq<string> {
    FlatMap(LineParts, SplitLines(raw))
  }

  /** `_extract_sse_message_content`. */
  function MessageContent(raw: string): string {
    Concat(StreamParts(ReplaceCr(ReplaceCrLf(raw))))
  }

  /** The same with its loops: over the lines, and over the choices of one line's payload. */
  method ExtractMessageContent(raw: string) returns (content: string)
    ensures content == MessageContent(raw)
  {
    var lines := SplitLines(ReplaceCr(ReplaceCrLf(raw)));
    var parts := ExtractLines(lines, LineParts);
    content := Concat(parts);
  }

  ghost predicate Reads(f: string -> seq<string>, line: string) {
    f(line) == LineParts(line)
  }

  /** The loop over the lines. `f` names what one line contributes. */
  method ExtractLines(lines: seq<string>, ghost f: string -> seq<string>) returns (parts: seq<string>)
    requires forall line :: Reads(f, line)
    ensures parts == FlatMap(f, lines)
  {
    parts := [];
    for k := 0 to |lines|
      invariant parts + FlatMap(f, lines[k..]) == FlatMap(f, lines)
    {
      assert Reads(f, lines[k]);
      var more := ExtractLine(lines[k], f);
      FlatMapNext(f, lines, k, parts);
      parts := parts + more;
    }
  }

  method ExtractLine(line: string, ghost f: string -> seq<string>) returns (parts: seq<string>)
    requires Reads(f, line)
    ensures parts == f(line)
  {
    parts := [];
    if !("data:" <= line) {
      return;
    }
    var payload := Strip(line[5..]);
    if payload == "" || payload == "[DONE]" {
      return;
    }
    parts := ExtractData(Loads(payload));
  }

  method ExtractData(data: Option<Json>) returns (parts: seq<string>)
    ensures parts == DataParts(data)
  {
    parts := [];
    if data.None? || !data.value.JObj? {
      return;
    }
    var choices := Get(data.value.fields, "choices");
    if choices.None? || !choices.value.JArr? {
      return;
    }
    var items := choices.value.items;
    for m := 0 to |items|
      invariant parts == ChoicesParts(items[..m])
    {
      ChoicesNext(items, m);
      parts := parts + ChoiceParts(items[m]);
    }
    assert items[..|items|] == items;
  }

  lemma FlatMapNext(f: string -> seq<string>, lines: seq<string>, k: nat, parts: seq<string>)
    requires k < |lines|
    ensures (parts + f(lines[k])) + FlatMap(f, lines[k + 1..]) == parts + FlatMap(f, lines[k..])
  {
    assert lines[k..][0] == lines[k] && lines[k..][1..] == lines[k + 1..];
  }

  lemma ChoicesNext(choices: seq<Json>, m: nat)
    requires m < |choices|
    ensures ChoicesParts(choices[..m + 1]) == ChoicesParts(choices[..m]) + ChoiceParts(choices[m])
  {
    assert choices[..m + 1][..m] == choices[..m];
  }

  // ---------- What is written stays on one line ----------

  /** No line break beyond the ones that JSON escapes. */
  predicate NoWideBreak(s: string) {
    forall i :: 0 <= i < |s| ==> s[i] != '\U{85}' && s[i] != '\U{2028}' && s[i] != '\U{2029}'
  }

  /** Neither line breaks nor carriage returns. */
  predicate OneLine(s: string) {
    forall i :: 0 <= i < |s| ==> !IsBreak(s[i]) && s[i] != '\r'
  }

  /** Every string inside is free of wide breaks. */
  predicate Plain(j: Json) {
    match j
    case JStr(s) => NoWideBreak(s)
    case JArr(items) => forall i :: 0 <= i < |items| ==> Plain(items[i])
    case JObj(fields) => forall i :: 0 <= i < |fields| ==> NoWideBreak(fields[i].key) && Plain(fields[i].value)
    case _ => true
  }

  lemma {:induction false} EscapeOneLine(s: string)
    requires NoWideBreak(s)
    ensures OneLine(Escape(s))
  {
    if s != "" {
      EscapeOneLine(s[1..]);
      EscapeCharOneLine(s[0]);
    }
  }

  lemma EscapeCharOneLine(c: char)
    requires NoWideBreak([c])
    ensures OneLine(EscapeChar(c))
  {
    assert [c][0] == c;
    if c < ' ' {
      HexIsPlain(c as int / 16);
      HexIsPlain(c as int % 16);
    }
  }

  lemma HexIsPlain(n: nat)
    requires n < 16
    ensures '0' <= HexDigit(n) <= 'f'
  {
  }

  lemma StringOneLine(s: string, rest: string)
    requires NoWideBreak(s) && OneLine(rest)
    ensures OneLine(WriteString(s, rest))
  {
    EscapeOneLine(s);
  }

  lemma {:induction false} WriteOneLine(j: Json, style: Style, rest: string)
    requires Plain(j) && OneLine(rest)
    ensures OneLine(Write(j, style, rest))
    decreases j, 1
  {
    match j
    case JNull =>
    case JBool(b) =>
    case JInt(n) => IntTextOneLine(n);
    case JStr(s) => StringOneLine(s, rest);
    case JArr(items) =>
      if items != [] { WriteItemsOneLine(items, style, rest); }
    case JObj(fields) =>
      if fields != [] { WriteFieldsOneLine(fields, style, rest); }
  }

  lemma IntTextOneLine(n: int)
    ensures OneLine(IntText(n))
  {
    var digits := NatText(if n < 0 then -n else n);
    assert forall i :: 0 <= i < |digits| ==> IsAsciiDigit(digits[i]);
  }

  lemma {:induction false} WriteItemsOneLine(items: seq<Json>, style: Style, rest: string)
    requires items != [] && (forall i :: 0 <= i < |items| ==> Plain(items[i])) && OneLine(rest)
    ensures OneLine(WriteItems(items, style, rest))
    decreases items, 0
  {
    if |items| == 1 {
      WriteOneLine(items[0], style, "]" + rest);
    } else {
      WriteItemsOneLine(items[1..], style, rest);
      WriteOneLine(items[0], style, Separated(',', style, WriteItems(items[1..], style, rest)));
    }
  }

  lemma {:induction false} WriteFieldsOneLine(fields: seq<Member>, style: Style, rest: string)
    requires fields != [] && OneLine(rest)
    requires forall i :: 0 <= i < |fields| ==> NoWideBreak(fields[i].key) && Plain(fields[i].value)
    ensures OneLine(WriteFields(fields, style, rest))
    decreases fields, 0
  {
    if |fields| > 1 {
      WriteFieldsOneLine(fields[1..], style, rest);
    }
    var tail := if |fields| == 1 then "}" + rest else Separated(',', style, WriteFields(fields[1..], style, rest));
    var value := Write(fields[0].value, style, tail);
    WriteOneLine(fields[0].value, style, tail);
    StringOneLine(fields[0].key, Separated(':', style, value));
  }

  /** A written object ends with its brace. */
  predicate EndsWith(w: string, rest: string) {
    |rest| <= |w| && w[|w| - |rest|..] == rest
  }

  lemma EndsAfter(x: string, w: string, rest: string)
    requires EndsWith(w, rest)
    ensures EndsWith(x + w, rest)
  {
  }

  lemma EndsTransitive(a: string, b: string, c: string)
    requires EndsWith(a, b) && EndsWith(b, c)
    ensures EndsWith(a, c)
  {
    assert a[|a| - |c|..] == a[|a| - |b|..][|b| - |c|..];
  }

  lemma StringEnds(s: string, rest: string, end: string)
    requires EndsWith(rest, end)
    ensures EndsWith(WriteString(s, rest), end)
  {
    EndsAfter("\"", rest, end);
    EndsAfter(Escape(s), "\"" + rest, end);
    EndsAfter("\"", Escape(s) + ("\"" + rest), end);
  }

  lemma SeparatedEnds(sep: char, style: Style, more: string, end: string)
    requires EndsWith(more, end)
    ensures EndsWith(Separated(sep, style, more), end)
  {
    EndsAfter([' '], more, end);
    EndsAfter([sep], more, end);
    EndsAfter([sep], [' '] + more, end);
  }

  lemma {:induction false} WriteEnds(j: Json, style: Style, rest: string)
    ensures EndsWith(Write(j, style, rest), rest)
    decreases j, 1
  {
    match j
    case JArr(items) =>
      EndsAfter("]", rest, rest);
      if items != [] {
        WriteItemsEnd(items, style, rest);
        EndsTransitive(WriteItems(items, style, rest), "]" + rest, rest);
        EndsAfter("[", WriteItems(items, style, rest), rest);
      } else {
        EndsAfter("[", "]" + rest, rest);
      }
    case JObj(fields) =>
      EndsAfter("}", rest, rest);
      if fields != [] {
        WriteFieldsEnd(fields, style, rest);
        EndsTransitive(WriteFields(fields, style, rest), "}" + rest, rest);
        EndsAfter("{", WriteFields(fields, style, rest), rest);
      } else {
        EndsAfter("{", "}" + rest, rest);
      }
    case JStr(s) => StringEnds(s, rest, rest);
    case _ =>
  }

  lemma {:induction false} WriteItemsEnd(items: seq<Json>, style: Style, rest: string)
    requires items != []
    ensures EndsWith(WriteItems(items, style, rest), "]" + rest)
    decreases items, 0
  {
    if |items| == 1 {
      WriteEnds(items[0], style, "]" + rest);
    } else {
      var more := WriteItems(items[1..], style, rest);
      WriteItemsEnd(items[1..], style, rest);
      SeparatedEnds(',', style, more, "]" + rest);
      WriteEnds(items[0], style, Separated(',', style, more));
      EndsTransitive(WriteItems(items, style, rest), Separated(',', style, more), "]" + rest);
    }
  }

  lemma {:induction false} WriteFieldsEnd(fields: seq<Member>, style: Style, rest: string)
    requires fields != []
    ensures EndsWith(WriteFields(fields, style, rest), "}" + rest)
    decreases fields, 0
  {
    var end := "}" + rest;
    var tail := if |fields| == 1 then end else Separated(',', style, WriteFields(fields[1..], style, rest));
    if |fields| > 1 {
      WriteFieldsEnd(fields[1..], style, rest);
      SeparatedEnds(',', style, WriteFields(fields[1..], style, rest), end);
    }
    var value := Write(fields[0].value, style, tail);
    WriteEnds(fields[0].value, style, tail);
    EndsTransitive(value, tail, end);
    SeparatedEnds(':', style, value, end);
    StringEnds(fields[0].key, Separated(':', style, value), end);
  }

  // ---------- The round trip ----------

  lemma {:induction false} LineThenRest(line: string, rest: string)
    requires OneLine(line)
    ensures SplitLines(line + ("\n" + rest)) == [line] + SplitLines(rest)
  {
    var s := line + ("\n" + rest);
    if line == "" {
      assert s == "\n" + rest && s[1..] == rest;
    } else {
      assert s[1..] == line[1..] + ("\n" + rest);
      LineThenRest(line[1..], rest);
      assert line == [line[0]] + line[1..];
    }
  }

  /** An event is one line and an empty one. */
  lemma EventLines(f: string -> seq<string>, data: string, rest: string)
    requires OneLine(data) && f("") == []
    ensures FlatMap(f, SplitLines(Event(data) + rest)) == f("data: " + data) + FlatMap(f, SplitLines(rest))
  {
    var line := "data: " + data;
    assert Event(data) + rest == line + ("\n" + ("" + ("\n" + rest)));
    LineThenRest(line, "" + ("\n" + rest));
    LineThenRest("", rest);
    FlatMapCons(f, line, [""] + SplitLines(rest));
    FlatMapCons(f, "", SplitLines(rest));
  }

  lemma FlatMapCons(f: string -> seq<string>, line: string, lines: seq<string>)
    ensures FlatMap(f, [line] + lines) == f(line) + FlatMap(f, lines)
  {
    assert ([line] + lines)[1..] == lines;
  }

  lemma BlankStripped(d: string)
    requires d != "" && !IsSpace(d[0]) && !IsSpace(d[|d| - 1])
    ensures Strip(" " + d) == d
  {
    assert (" " + d)[1..] == d;
    assert StripLeft(d) == d;
    StripFixed(d);
  }

  /** A written object, stripped of the blank after `data:`, is itself. */
  lemma PayloadStripped(j: Json)
    requires j.JObj? && j.fields != []
    ensures var d := Dumps(j, Spaced); d != "" && d[0] == '{' && Strip(" " + d) == d
  {
    var w := WriteFields(j.fields, Spaced, "");
    WriteFieldsEnd(j.fields, Spaced, "");
    assert "}" + "" == "}";
    EndsAfter("{", w, "}");
    BlankStripped("{" + w);
  }

  lemma GetOne(m: Member, key: string)
    ensures Get([m], key) == if m.key == key then Some(m.value) else None
  {
    assert [m][1..] == [];
  }

  /** What the reader finds in a chunk payload. */
  lemma PayloadChoices(r: Reply, delta: seq<Member>, finish: Json)
    ensures Get(ChunkPayload(r, delta, finish).fields, "choices") == Some(JArr([Choice(delta, finish)]))
    ensures ChoiceParts(Choice(delta, finish)) == TextMember(Some(JObj(delta)), "content")
  {
    ChoiceDelta(delta, finish);
    var f := ChunkPayload(r, delta, finish).fields;
    GetLater(f, "choices");
    GetLater(f[1..], "choices");
    GetLater(f[1..][1..], "choices");
    GetLater(f[1..][1..][1..], "choices");
  }

  lemma GetLater(fields: seq<Member>, key: string)
    requires fields != [] && fields[0].key != key
    ensures Get(fields, key) == Get(fields[1..], key)
  {
  }

  lemma ChoiceDelta(delta: seq<Member>, finish: Json)
    ensures ChoiceParts(Choice(delta, finish)) == TextMember(Some(JObj(delta)), "content")
  {
    var f := Choice(delta, finish).fields;
    GetLater(f, "delta");
    GetLater(f, "message");
    GetLater(f[1..], "message");
    GetLater(f[1..][1..], "message");
  }

  lemma PayloadUnambiguous(r: Reply, delta: seq<Member>, finish: Json)
    requires Unambiguous(JObj(delta)) && Unambiguous(finish)
    ensures Unambiguous(ChunkPayload(r, delta, finish))
  {
    var choice := Choice(delta, finish);
    assert DistinctKeys(choice.fields);
    assert Unambiguous(choice.fields[1].value);
    assert Unambiguous(choice);
    var f := ChunkPayload(r, delta, finish).fields;
    assert DistinctKeys(f);
    assert f[4].value == JArr([choice]) && Unambiguous(f[4].value);
  }

  /** The line of an event whose payload is an object with one choice. */
  lemma LineOf(p: Json, choice: Json)
    requires p.JObj? && Unambiguous(p) && Get(p.fields, "choices") == Some(JArr([choice]))
    ensures LineParts("data: " + Dumps(p, Spaced)) == ChoiceParts(choice)
  {
    var d := Dumps(p, Spaced);
    PayloadStripped(p);
    DataLine(d);
    LoadsDumps(p, Spaced);
    OneChoice(p.fields, choice);
  }

  lemma LineOfPayload(line: string, payload: string)
    requires "data:" <= line && Strip(line[5..]) == payload
    ensures LineParts(line) == PayloadParts(payload)
  {
  }

  lemma ObjectPayload(d: string)
    requires d != "" && d[0] == '{'
    ensures PayloadParts(d) == DataParts(Loads(d))
  {
    assert d != "[DONE]" by { assert "[DONE]"[0] != '{'; }
  }

  lemma DataPrefix(d: string)
    ensures "data:" <= "data: " + d && ("data: " + d)[5..] == " " + d
  {
  }

  lemma DataLine(d: string)
    requires d != "" && d[0] == '{' && Strip(" " + d) == d
    ensures LineParts("data: " + d) == DataParts(Loads(d))
  {
    DataPrefix(d);
    LineOfPayload("data: " + d, d);
    ObjectPayload(d);
  }

  lemma OneChoice(fields: seq<Member>, choice: Json)
    requires Get(fields, "choices") == Some(JArr([choice]))
    ensures DataParts(Some(JObj(fields))) == ChoiceParts(choice)
  {
    assert [choice][..1] == [choice] && [choice][..0] == [];
    ChoicesNext([choice], 0);
  }

  /** One event in front of the rest of the stream. */
  lemma ObjectEvent(p: Json, choice: Json, rest: string)
    requires p.JObj? && Unambiguous(p) && Plain(p) && Get(p.fields, "choices") == Some(JArr([choice]))
    ensures var e := Event(Dumps(p, Spaced)); StreamParts(e + rest) == ChoiceParts(choice) + StreamParts(rest) && OnlyLineFeeds(e)
  {
    WriteOneLine(p, Spaced, "");
    LineOf(p, choice);
    EventStream(Dumps(p, Spaced), ChoiceParts(choice), rest);
  }

  lemma EmptyLine()
    ensures LineParts("") == []
  {
  }

  lemma EventFeeds(data: string)
    requires OneLine(data)
    ensures OnlyLineFeeds(Event(data))
  {
  }

  lemma EventStream(data: string, parts: seq<string>, rest: string)
    requires OneLine(data) && LineParts("data: " + data) == parts
    ensures StreamParts(Event(data) + rest) == parts + StreamParts(rest) && OnlyLineFeeds(Event(data))
  {
    EmptyLine();
    EventFeeds(data);
    EventLines(LineParts, data, rest);
  }

  predicate OnlyLineFeeds(s: string) {
    '\r' !in s
  }

  lemma ChoicePlain(delta: seq<Member>, finish: Json)
    requires Plain(JObj(delta)) && Plain(finish)
    ensures Plain(Choice(delta, finish))
  {
    var f := Choice(delta, finish).fields;
    assert NoWideBreak(f[0].key) && NoWideBreak(f[1].key) && NoWideBreak(f[2].key);
    assert Plain(f[0].value) && Plain(f[1].value) && Plain(f[2].value);
  }

  lemma OnePlain(j: Json)
    requires Plain(j)
    ensures Plain(JArr([j]))
  {
  }

  lemma PayloadKeysPlain(r: Reply, delta: seq<Member>, finish: Json)
    ensures forall m :: m in ChunkPayload(r, delta, finish).fields ==> NoWideBreak(m.key)
  {
  }

  lemma KindPlain()
    ensures Plain(JStr("chat.completion.chunk"))
  {
  }

  predicate PlainMember(m: Member) {
    NoWideBreak(m.key) && Plain(m.value)
  }

  lemma FivePlain(a: Member, b: Member, c: Member, e: Member, f: Member)
    requires PlainMember(a) && PlainMember(b) && PlainMember(c) && PlainMember(e) && PlainMember(f)
    ensures Plain(JObj([a, b, c, e, f]))
  {
  }

  lemma PayloadPlain(r: Reply, delta: seq<Member>, finish: Json)
    requires NoWideBreak(r.id) && NoWideBreak(r.model) && Plain(JObj(delta)) && Plain(finish)
    ensures Plain(ChunkPayload(r, delta, finish))
  {
    ChoicePlain(delta, finish);
    OnePlain(Choice(delta, finish));
    PayloadKeysPlain(r, delta, finish);
    KindPlain();
    var f := ChunkPayload(r, delta, finish).fields;
    FivePlain(f[0], f[1], f[2], f[3], f[4]);
  }

  /** One event of the stand-in stream in front of the rest. */
  lemma EventParts(r: Reply, delta: seq<Member>, finish: Json, rest: string)
    requires NoWideBreak(r.id) && NoWideBreak(r.model) && Plain(JObj(delta)) && Plain(finish)
    requires Unambiguous(JObj(delta)) && Unambiguous(finish)
    ensures var e := Event(Dumps(ChunkPayload(r, delta, finish), Spaced));
            && StreamParts(e + rest) == TextMember(Some(JObj(delta)), "content") + StreamParts(rest)
            && OnlyLineFeeds(e)
  {
    var p := ChunkPayload(r, delta, finish);
    PayloadUnambiguous(r, delta, finish);
    PayloadPlain(r, delta, finish);
    PayloadChoices(r, delta, finish);
    ObjectEvent(p, Choice(delta, finish), rest);
  }

  lemma DeltaParts(r: Reply, delta: string, rest: string)
    requires NoWideBreak(r.id) && NoWideBreak(r.model) && NoWideBreak(delta)
    ensures var e := DeltaEvent(r, delta); StreamParts(e + rest) == [delta] + StreamParts(rest) && OnlyLineFeeds(e)
  {
    var member := Member("content", JStr(delta));
    assert Plain(member.value);
    GetOne(member, "content");
    EventParts(r, [member], JNull, rest);
  }

  /** Events that each contribute their part contribute them in order. */
  lemma {:induction false} PartsInOrder(g: string -> seq<string>, events: seq<string>, parts: seq<string>, rest: string)
    requires |events| == |parts|
    requires forall i, tail :: 0 <= i < |events| ==> g(events[i] + tail) == [parts[i]] + g(tail)
    requires forall i :: 0 <= i < |events| ==> OnlyLineFeeds(events[i])
    ensures g(Concat(events) + rest) == parts + g(rest) && OnlyLineFeeds(Concat(events))
  {
    if events == [] {
      assert "" + rest == rest;
    } else {
      forall i, tail | 0 <= i < |events[1..]|
        ensures g(events[1..][i] + tail) == [parts[1..][i]] + g(tail)
      {
        assert g(events[i + 1] + tail) == [parts[i + 1]] + g(tail);
      }
      PartsInOrder(g, events[1..], parts[1..], rest);
      ConcatAssociative(events[0], Concat(events[1..]), rest);
      assert g(events[0] + (Concat(events[1..]) + rest)) == [parts[0]] + g(Concat(events[1..]) + rest);
      HeadFirst(parts, g(rest));
    }
  }

  lemma HeadFirst(parts: seq<string>, rest: seq<string>)
    requires parts != []
    ensures [parts[0]] + (parts[1..] + rest) == parts + rest
  {
  }

  lemma {:induction false} DeltaEventsAt(r: Reply, deltas: seq<string>)
    ensures |DeltaEvents(r, deltas)| == |deltas|
    ensures forall i :: 0 <= i < |deltas| ==> DeltaEvents(r, deltas)[i] == DeltaEvent(r, deltas[i])
  {
    if deltas != [] {
      DeltaEventsAt(r, deltas[1..]);
    }
  }

  lemma DeltasParts(r: Reply, deltas: seq<string>, rest: string)
    requires NoWideBreak(r.id) && NoWideBreak(r.model) && forall i :: 0 <= i < |deltas| ==> NoWideBreak(deltas[i])
    ensures Carries(Concat(DeltaEvents(r, deltas)), deltas, rest)
  {
    var events := DeltaEvents(r, deltas);
    DeltaEventsAt(r, deltas);
    forall i, tail | 0 <= i < |events|
      ensures StreamParts(events[i] + tail) == [deltas[i]] + StreamParts(tail)
    {
      DeltaParts(r, deltas[i], tail);
    }
    forall i | 0 <= i < |events|
      ensures OnlyLineFeeds(events[i])
    {
      DeltaParts(r, deltas[i], "");
    }
    PartsInOrder(StreamParts, events, deltas, rest);
  }

  lemma {:induction false} DeltasConcat(content: string)
    ensures Concat(Deltas(content)) == content
    ensures NoWideBreak(content) ==> forall i :: 0 <= i < |Deltas(content)| ==> NoWideBreak(Deltas(content)[i])
    decreases |content|
  {
    if content != "" {
      var n := Min(2, |content|);
      DeltasConcat(content[n..]);
      assert content == content[..n] + content[n..];
      assert Deltas(content)[1..] == Deltas(content[n..]);
    }
  }

  /** The characters of the closing mark. */
  predicate DoneMark(d: string) {
    |d| == 6 && d[0] == '[' && d[1] == 'D' && d[2] == 'O' && d[3] == 'N' && d[4] == 'E' && d[5] == ']'
  }

  lemma DoneParts(done: string)
    requires DoneMark(done)
    ensures SilentStream(Event(done))
  {
    DoneLine(done);
    SilentEvent(done);
  }

  predicate SilentData(data: string) {
    OneLine(data) && LineParts("data: " + data) == []
  }

  predicate SilentStream(s: string) {
    StreamParts(s) == [] && OnlyLineFeeds(s)
  }

  lemma SilentEvent(data: string)
    requires SilentData(data)
    ensures SilentStream(Event(data))
  {
    EventStream(data, [], "");
    assert Event(data) + "" == Event(data);
    NothingLeft();
  }

  lemma NothingLeft()
    ensures StreamParts("") == []
  {
    EmptyLine();
  }

  lemma DoneLine(done: string)
    requires DoneMark(done)
    ensures SilentData(done)
  {
    MarkOneLine(done);
    MarkParts(done);
  }

  lemma MarkOneLine(done: string)
    requires DoneMark(done)
    ensures OneLine(done)
  {
  }

  lemma MarkParts(done: string)
    requires DoneMark(done)
    ensures LineParts("data: " + done) == []
  {
    DataPrefix(done);
    BlankStripped(done);
    DonePayload(done);
    LineOfPayload("data: " + done, done);
  }

  lemma DonePayload(done: string)
    requires DoneMark(done)
    ensures PayloadParts(done) == []
  {
    assert done == "[DONE]";
  }

  /**
  Round trip: recording the whole stand-in stream and extracting its text gives back the content, for all
  content, ids and model names without U+0085, U+2028 and U+2029, the line breaks that JSON leaves raw.
  */
  lemma FakeStreamRoundTrip(r: Reply, content: string)
    requires NoWideBreak(r.id) && NoWideBreak(r.model) && NoWideBreak(content)
    ensures MessageContent(Concat(FakeStream(r, content))) == content
  {
    RoundTripWith(r, content, "[DONE]");
  }

  lemma RoundTripWith(r: Reply, content: string, mark: string)
    requires NoWideBreak(r.id) && NoWideBreak(r.model) && NoWideBreak(content) && DoneMark(mark)
    ensures var final := Event(Dumps(ChunkPayload(r, [], JStr("stop")), Spaced));
            MessageContent(Concat(DeltaEvents(r, Deltas(content)) + [final, Event(mark)])) == content
  {
    var deltas := Deltas(content);
    var final, done := Event(Dumps(ChunkPayload(r, [], JStr("stop")), Spaced)), Event(mark);
    DeltasConcat(content);
    DoneParts(mark);
    NoDelta(r, done);
    DeltasParts(r, deltas, final + done);
    WholeCarries(Concat(DeltaEvents(r, deltas)), final, done, deltas);
    StreamText(DeltaEvents(r, deltas), final, done);
    WholeStream(Concat(DeltaEvents(r, deltas) + [final, done]), deltas);
  }

  /** `s`, in front of `rest`, contributes exactly `parts`. */
  predicate Carries(s: string, parts: seq<string>, rest: string) {
    StreamParts(s + rest) == parts + StreamParts(rest) && OnlyLineFeeds(s)
  }

  lemma NoDelta(r: Reply, done: string)
    requires NoWideBreak(r.id) && NoWideBreak(r.model)
    ensures Carries(Event(Dumps(ChunkPayload(r, [], JStr("stop")), Spaced)), [], done)
  {
    EventParts(r, [], JStr("stop"), done);
  }

  lemma WholeCarries(s: string, final: string, done: string, parts: seq<string>)
    requires Carries(s, parts, final + done) && Carries(final, [], done) && SilentStream(done)
    ensures StreamParts(s + (final + done)) == parts
  {
  }

  lemma StreamText(events: seq<string>, final: string, done: string)
    requires OnlyLineFeeds(Concat(events)) && OnlyLineFeeds(final) && OnlyLineFeeds(done)
    ensures Concat(events + [final, done]) == Concat(events) + (final + done)
    ensures OnlyLineFeeds(Concat(events + [final, done]))
  {
    ConcatAppend(events, [final, done]);
    assert [final, done][1..] == [done] && [done][1..] == [];
    assert Concat([done]) == done + "" == done;
    assert Concat([final, done]) == final + done;
  }

  lemma WholeStream(s: string, parts: seq<string>)
    requires OnlyLineFeeds(s) && StreamParts(s) == parts
    ensures MessageContent(s) == Concat(parts)
  {
    ReplaceCrLfFixed(s);
    ReplaceCrFixed(s);
  }
}
