/**
Reading event streams, from the text that was sent to what a reader makes of it: which pieces a stream falls
into, which lines carry data, what the archive and the verification client take from a payload, and that the
client reads the stand-in stream right whatever it says.
*/
module SseReading {
  import opened Options
  import opened Json
  import opened Text
  import opened SseClient
  import opened SseStream
  import opened SseBreaks

  // ---------- Blocks and lines ----------

  predicate NoLineFeed(s: string) {
    forall i :: 0 <= i < |s| ==> s[i] != '\n'
  }

  /** No two line feeds in a row. */
  predicate NoBlankLine(s: string) {
    forall i :: 0 < i < |s| ==> !(s[i - 1] == '\n' && s[i] == '\n')
  }

  /** A complete block: no blank line in it, and none begins in it. */
  predicate IsBlock(s: string) {
    NoBlankLine(s) && (s != "" ==> s[|s| - 1] != '\n')
  }

  lemma BlockCons(c: char, s: string)
    requires NoBlankLine(s) && !(c == '\n' && s != "" && s[0] == '\n')
    ensures NoBlankLine([c] + s)
  {
    var t := [c] + s;
    forall i | 0 < i < |t|
      ensures !(t[i - 1] == '\n' && t[i] == '\n')
    {
      assert t[i] == s[i - 1] && (i > 1 ==> t[i - 1] == s[i - 2]);
    }
  }

  /** A split cuts at every blank line: what it leaves, in the blocks and behind them, has none. */
  lemma {:induction false} SplitShape(s: string)
    ensures var b := Split(s); (forall k :: 0 <= k < |b.parts| ==> IsBlock(b.parts[k])) && NoBlankLine(b.remainder)
    ensures Front(Split(s), s)
    decreases |s|
  {
    if |s| >= 2 {
      if s[0] == '\n' && s[1] == '\n' {
        SplitShape(s[2..]);
      } else {
        SplitShape(s[1..]);
        ConsShape(s[0], Split(s[1..]), s[1..]);
      }
    }
  }

  /** The first piece begins as the text does, and is empty only when a blank line begins the text. */
  predicate Front(b: Blocks, s: string) {
    var first := if b.parts == [] then b.remainder else b.parts[0];
    if first == "" then s == "" || (|s| >= 2 && s[0] == '\n' && s[1] == '\n') else s != "" && s[0] == first[0]
  }

  lemma ConsShape(c: char, b: Blocks, s: string)
    requires s != "" && !(c == '\n' && s[0] == '\n') && Front(b, s)
    requires (forall k :: 0 <= k < |b.parts| ==> IsBlock(b.parts[k])) && NoBlankLine(b.remainder)
    ensures var p := SseClient.Prepend(c, b);
            (forall k :: 0 <= k < |p.parts| ==> IsBlock(p.parts[k])) && NoBlankLine(p.remainder) && Front(p, [c] + s)
  {
    var first := if b.parts == [] then b.remainder else b.parts[0];
    BlockCons(c, first);
    if b.parts != [] && first == "" {
      assert s[0] == '\n';
    }
  }

  lemma {:induction false} LinesJoin(s: string)
    ensures Join("\n", Lines(s)) == s && forall k :: 0 <= k < |Lines(s)| ==> NoLineFeed(Lines(s)[k])
  {
    if s != "" {
      LinesJoin(s[1..]);
      var rest := Lines(s[1..]);
      if s[0] == '\n' {
        JoinCons("", rest);
        assert s == "\n" + s[1..];
      } else {
        JoinPrepend(s[0], rest);
        assert s == [s[0]] + s[1..];
      }
    }
  }

  lemma JoinCons(line: string, rest: seq<string>)
    requires rest != []
    ensures Join("\n", [line] + rest) == line + "\n" + Join("\n", rest)
  {
    assert ([line] + rest)[1..] == rest;
  }

  lemma JoinPrepend(c: char, lines: seq<string>)
    requires lines != []
    ensures Join("\n", [[c] + lines[0]] + lines[1..]) == [c] + Join("\n", lines)
  {
    if |lines| > 1 {
      JoinCons([c] + lines[0], lines[1..]);
      JoinCons(lines[0], lines[1..]);
      assert lines == [lines[0]] + lines[1..];
      assert ([c] + lines[0]) + "\n" + Join("\n", lines[1..]) == [c] + (lines[0] + "\n" + Join("\n", lines[1..]));
    }
  }

  lemma {:induction false} LineIsLines(line: string)
    requires NoLineFeed(line)
    ensures Lines(line) == [line]
  {
    if line != "" {
      LineIsLines(line[1..]);
      assert line == [line[0]] + line[1..];
    }
  }

  lemma {:induction false} LinesAfter(line: string, s: string)
    requires NoLineFeed(line)
    ensures Lines(line + ("\n" + s)) == [line] + Lines(s)
  {
    var t := line + ("\n" + s);
    if line == "" {
      assert t == "\n" + s && t[1..] == s;
    } else {
      assert t[0] == line[0] && t[1..] == line[1..] + ("\n" + s);
      LinesAfter(line[1..], s);
      assert line == [line[0]] + line[1..];
    }
  }

  /** Lines put together come apart again. */
  lemma {:induction false} JoinLines(lines: seq<string>)
    requires lines != [] && forall k :: 0 <= k < |lines| ==> NoLineFeed(lines[k])
    ensures Lines(Join("\n", lines)) == lines
  {
    if |lines| == 1 {
      LineIsLines(lines[0]);
    } else {
      JoinLines(lines[1..]);
      assert lines[0] + "\n" + Join("\n", lines[1..]) == lines[0] + ("\n" + Join("\n", lines[1..]));
      LinesAfter(lines[0], Join("\n", lines[1..]));
      assert lines == [lines[0]] + lines[1..];
    }
  }

  /** The line begins with `data:`. */
  predicate CarriesData(line: string) {
    |line| >= 5 && line[0] == 'd' && line[1] == 'a' && line[2] == 't' && line[3] == 'a' && line[4] == ':'
  }

  lemma DataPrefixIs(line: string)
    ensures "data:" <= line <==> CarriesData(line)
  {
    if |line| >= 5 {
      assert "data:" <= line <==> forall k :: 0 <= k < 5 ==> line[k] == "data:"[k];
    }
  }

  /** A line that begins with `data:` gives what follows, stripped; any other line gives nothing. */
  lemma OneDataLine(line: string)
    ensures DataLines([line]) == if CarriesData(line) then [Strip(line[5..])] else []
  {
    DataPrefixIs(line);
    assert [line][1..] == [];
  }

  /** `g` takes a list element by element from the front, and `f` is what one element gives. */
  ghost predicate FromFront<T(!new), U(!new)>(g: seq<T> -> seq<U>, f: T -> seq<U>, items: seq<T>) {
    g(items) == if items == [] then [] else f(items[0]) + g(items[1..])
  }

  /** The same from the back. */
  ghost predicate FromBack<T(!new), U(!new)>(g: seq<T> -> seq<U>, f: T -> seq<U>, items: seq<T>) {
    g(items) == if items == [] then [] else g(items[..|items| - 1]) + f(items[|items| - 1])
  }

  lemma {:induction false} FrontConcat<T(!new), U(!new)>(g: seq<T> -> seq<U>, f: T -> seq<U>, a: seq<T>, b: seq<T>)
    requires forall items :: FromFront(g, f, items)
    ensures g(a + b) == g(a) + g(b)
  {
    assert FromFront(g, f, a) && FromFront(g, f, a + b);
    if a == [] {
      assert a + b == b;
    } else {
      assert (a + b)[1..] == a[1..] + b;
      FrontConcat(g, f, a[1..], b);
    }
  }

  lemma {:induction false} BackConcat<T(!new), U(!new)>(g: seq<T> -> seq<U>, f: T -> seq<U>, a: seq<T>, b: seq<T>)
    requires forall items :: FromBack(g, f, items)
    ensures g(a + b) == g(a) + g(b)
  {
    assert FromBack(g, f, b) && FromBack(g, f, a + b);
    if b == [] {
      assert a + b == a;
    } else {
      assert (a + b)[..|a + b| - 1] == a + b[..|b| - 1];
      BackConcat(g, f, a, b[..|b| - 1]);
    }
  }

  /** The lines of a block give what they give in line order. */
  lemma DataLinesConcat(a: seq<string>, b: seq<string>)
    ensures DataLines(a + b) == DataLines(a) + DataLines(b)
  {
    var f := (line: string) => if "data:" <= line then [Strip(line[5..])] else [];
    forall lines ensures FromFront(DataLines, f, lines) {
    }
    FrontConcat(DataLines, f, a, b);
  }

  /** A block delivers the values of its data lines, one below the other, and nothing when it has none. */
  lemma BlockDelivers(lines: seq<string>)
    requires lines != [] && forall k :: 0 <= k < |lines| ==> NoLineFeed(lines[k])
    ensures DataOf([Join("\n", lines)]) == if DataLines(lines) == [] then [] else [Join("\n", DataLines(lines))]
  {
    JoinLines(lines);
    OneBlock(Join("\n", lines), lines);
  }

  lemma OneBlock(block: string, lines: seq<string>)
    requires Lines(block) == lines
    ensures DataOf([block]) == if DataLines(lines) == [] then [] else [Join("\n", DataLines(lines))]
  {
    assert [block][1..] == [];
  }

  // ---------- What the archive takes from a line ----------

  /** Member `key` of `j` is an object whose `content` is the text `s`. */
  predicate Says(j: seq<Member>, key: string, s: string) {
    var m := Get(j, key);
    m.Some? && m.value.JObj? && Get(m.value.fields, "content") == Some(JStr(s))
  }

  lemma SaysMember(fields: seq<Member>, key: string, s: string)
    ensures s in TextMember(Get(fields, key), "content") <==> Says(fields, key, s)
    ensures |TextMember(Get(fields, key), "content")| <= 1
  {
  }

  /** A choice gives the text of its delta and then the text of its message, each if it is there. */
  lemma ChoiceGives(fields: seq<Member>)
    ensures var parts := ChoiceParts(JObj(fields));
            && |parts| <= 2 && (forall s :: s in parts <==> Says(fields, "delta", s) || Says(fields, "message", s))
            && (forall d, m :: Says(fields, "delta", d) && Says(fields, "message", m) ==> parts == [d, m])
  {
    forall s
      ensures (s in TextMember(Get(fields, "delta"), "content") <==> Says(fields, "delta", s))
      ensures (s in TextMember(Get(fields, "message"), "content") <==> Says(fields, "message", s))
    {
      SaysMember(fields, "delta", s);
      SaysMember(fields, "message", s);
    }
  }

  /** The choices of a payload give what they give in order. */
  lemma ChoicesConcat(a: seq<Json>, b: seq<Json>)
    ensures ChoicesParts(a + b) == ChoicesParts(a) + ChoicesParts(b)
  {
    forall choices ensures FromBack(ChoicesParts, ChoiceParts, choices) {
    }
    BackConcat(ChoicesParts, ChoiceParts, a, b);
  }

  /** The payload of a line: what follows `data:`, stripped, unless it is blank or the closing mark. */
  predicate HasPayload(line: string, payload: string) {
    CarriesData(line) && payload == Strip(line[5..]) && payload != "" && payload != "[DONE]"
  }

  /** A line gives what the choices of its payload give, in order, when the payload is an object with a list of choices. */
  lemma LineGives(line: string, payload: string, fields: seq<Member>, choices: seq<Json>)
    requires HasPayload(line, payload) && Loads(payload) == Some(JObj(fields)) && Get(fields, "choices") == Some(JArr(choices))
    ensures LineParts(line) == ChoicesParts(choices)
  {
    DataPrefixIs(line);
  }

  /** And a line that gives anything is such a line. */
  lemma LineSpeaks(line: string) returns (payload: string, fields: seq<Member>, choices: seq<Json>)
    requires LineParts(line) != []
    ensures HasPayload(line, payload) && Loads(payload) == Some(JObj(fields)) && Get(fields, "choices") == Some(JArr(choices))
  {
    DataPrefixIs(line);
    payload := Strip(line[5..]);
    fields := Loads(payload).value.fields;
    choices := Get(fields, "choices").value.items;
  }

  // ---------- Line ends ----------

  /** A line feed, a carriage return, or both. */
  predicate EndsLine(end: string, rest: string) {
    end == "\n" || end == "\r\n" || (end == "\r" && (rest == "" || rest[0] != '\n'))
  }

  lemma {:induction false} CrLfPasses(a: string, s: string)
    requires '\r' !in a
    ensures ReplaceCrLf(a + s) == a + ReplaceCrLf(s)
  {
    if a == "" {
      assert a + s == s;
    } else {
      assert (a + s)[0] == a[0] && (a + s)[1..] == a[1..] + s;
      CrLfPasses(a[1..], s);
      assert a == [a[0]] + a[1..];
    }
  }

  lemma {:induction false} CrConcat(a: string, b: string)
    ensures ReplaceCr(a + b) == ReplaceCr(a) + ReplaceCr(b)
  {
    if a == "" {
      assert a + b == b;
    } else {
      assert (a + b)[0] == a[0] && (a + b)[1..] == a[1..] + b;
      CrConcat(a[1..], b);
    }
  }

  lemma EndReplaced(end: string, rest: string)
    requires EndsLine(end, rest)
    ensures ReplaceCr(ReplaceCrLf(end + rest)) == "\n" + ReplaceCr(ReplaceCrLf(rest))
  {
    var s, more := end + rest, ReplaceCrLf(rest);
    if end == "\r\n" {
      assert s[2..] == rest;
    } else {
      assert s[0] == end[0] && s[1..] == rest;
    }
    assert ReplaceCrLf(s) == (if end == "\r" then "\r" else "\n") + more;
    assert ReplaceCrLf(s)[1..] == more;
  }

  lemma LineReplaced(line: string, end: string, rest: string)
    requires OneLine(line) && EndsLine(end, rest)
    ensures ReplaceCr(ReplaceCrLf(line + (end + rest))) == line + ("\n" + ReplaceCr(ReplaceCrLf(rest)))
  {
    CrLfPasses(line, end + rest);
    CrConcat(line, ReplaceCrLf(end + rest));
    ReplaceCrFixed(line);
    EndReplaced(end, rest);
  }

  /** The text of a stream is taken line by line, however the lines end. */
  lemma LineByLine(line: string, end: string, rest: string)
    requires OneLine(line) && EndsLine(end, rest)
    ensures MessageContent(line + (end + rest)) == Concat(LineParts(line)) + MessageContent(rest)
  {
    LineReplaced(line, end, rest);
    LineThenRest(line, ReplaceCr(ReplaceCrLf(rest)));
    FlatMapCons(LineParts, line, SplitLines(ReplaceCr(ReplaceCrLf(rest))));
    ConcatAppend(LineParts(line), StreamParts(ReplaceCr(ReplaceCrLf(rest))));
  }

  // ---------- What an event of the stand-in stream says ----------

  /** Members by name, the first ones of an object with distinct names. */
  lemma {:induction false} GetAt(fields: seq<Member>, i: nat, key: string)
    requires DistinctKeys(fields) && i < |fields| && fields[i].key == key
    ensures Get(fields, key) == Some(fields[i].value)
  {
    if i > 0 {
      GetAt(fields[1..], i - 1, key);
    }
  }

  /** The object with these members: what each event of one reply shares, and its one choice. */
  predicate IsChunk(j: Json, r: Reply, delta: seq<Member>, finish: Json) {
    && j.JObj? && |j.fields| == 5 && DistinctKeys(j.fields)
    && Get(j.fields, "id") == Some(JStr(r.id)) && Get(j.fields, "object") == Some(JStr("chat.completion.chunk"))
    && Get(j.fields, "created") == Some(JInt(r.created)) && Get(j.fields, "model") == Some(JStr(r.model))
    && var choices := Get(j.fields, "choices");
       && choices.Some? && choices.value.JArr? && |choices.value.items| == 1
       && IsChoice(choices.value.items[0], delta, finish)
  }

  predicate IsChoice(j: Json, delta: seq<Member>, finish: Json) {
    && j.JObj? && |j.fields| == 3 && DistinctKeys(j.fields)
    && Get(j.fields, "index") == Some(JInt(0)) && Get(j.fields, "delta") == Some(JObj(delta))
    && Get(j.fields, "finish_reason") == Some(finish)
  }

  lemma ChoiceMembers(fields: seq<Member>, delta: seq<Member>, finish: Json)
    requires JObj(fields) == Choice(delta, finish)
    ensures IsChoice(JObj(fields), delta, finish)
  {
    assert DistinctKeys(fields);
    GetAt(fields, 0, "index");
    GetAt(fields, 1, "delta");
    GetAt(fields, 2, "finish_reason");
  }

  lemma ChunkMembers(fields: seq<Member>, r: Reply, delta: seq<Member>, finish: Json)
    requires JObj(fields) == ChunkPayload(r, delta, finish)
    ensures IsChunk(JObj(fields), r, delta, finish)
  {
    assert DistinctKeys(fields);
    GetAt(fields, 0, "id");
    GetAt(fields, 1, "object");
    GetAt(fields, 2, "created");
    GetAt(fields, 3, "model");
    GetAt(fields, 4, "choices");
    ChoiceMembers(Choice(delta, finish).fields, delta, finish);
  }

  /** A reader of JSON finds in an event what the relay put there. */
  lemma ChunkReadsBack(r: Reply, delta: seq<Member>, finish: Json)
    requires Unambiguous(JObj(delta)) && Unambiguous(finish)
    ensures var read := Loads(Dumps(ChunkPayload(r, delta, finish), Spaced)); read.Some? && IsChunk(read.value, r, delta, finish)
  {
    PayloadUnambiguous(r, delta, finish);
    LoadsDumps(ChunkPayload(r, delta, finish), Spaced);
    ChunkMembers(ChunkPayload(r, delta, finish).fields, r, delta, finish);
  }

  // ---------- What the client takes from an event ----------

  /** `choice.get("delta") or {}`, and its content; `None` stands for the `AttributeError` that is not caught. */
  function DeltaFragment(choice: Json): Option<Json> {
    if !choice.JObj? then None
    else
      var delta := Get(choice.fields, "delta");
      if delta.None? || !Holds(delta.value) then Some(JStr(""))
      else if !delta.value.JObj? then None
      else
        var content := Get(delta.value.fields, "content");
        Some(if content.Some? && Holds(content.value) then content.value else JStr(""))
  }

  /** Python's truth of a value. */
  predicate Holds(j: Json) {
    match j
    case JNull => false
    case JBool(b) => b
    case JInt(n) => n != 0
    case JStr(s) => |s| > 0
    case JArr(items) => |items| > 0
    case JObj(fields) => |fields| > 0
  }

  /** `extract_stream_fragment`. */
  function Fragment(data: string): Option<Json> {
    var payload := Loads(data);
    if payload.None? || !payload.value.JObj? then Some(JStr(""))
    else
      var choices := Get(payload.value.fields, "choices");
      if choices.None? then Some(JStr(""))
      else
        match choices.value
        case JArr(items) => if items == [] then Some(JStr("")) else DeltaFragment(items[0])
        case JStr(s) => if |s| == 0 then Some(JStr("")) else None
        case _ => Some(JStr(""))
  }

  /** An event's data is a chat chunk whose first choice has a delta that says `s`. */
  ghost predicate FirstDeltaSays(data: string, s: string) {
    exists fields, choices, choice ::
      && Loads(data) == Some(JObj(fields)) && Get(fields, "choices") == Some(JArr(choices))
      && choices != [] && choices[0] == JObj(choice) && Says(choice, "delta", s)
  }

  /** The first of its choices, or the delta of that, is there and is not what the client can look into. */
  predicate Malformed(choices: Json) {
    || (choices.JStr? && choices.s != "")
    || (choices.JArr? && choices.items != []
        && (!choices.items[0].JObj?
            || (var delta := Get(choices.items[0].fields, "delta");
                delta.Some? && Holds(delta.value) && !delta.value.JObj?)))
  }

  /** The text that is taken is what the delta of the first choice says. */
  lemma FragmentExact(data: string, s: string)
    requires s != ""
    ensures Fragment(data) == Some(JStr(s)) <==> FirstDeltaSays(data, s)
  {
    var payload := Loads(data);
    if payload.Some? && payload.value.JObj? {
      var choices := Get(payload.value.fields, "choices");
      if choices.Some? && choices.value.JArr? && choices.value.items != [] && choices.value.items[0].JObj? {
        DeltaExact(choices.value.items[0].fields, s);
        assert payload == Some(JObj(payload.value.fields)) && choices == Some(JArr(choices.value.items));
      }
    }
  }

  lemma DeltaExact(choice: seq<Member>, s: string)
    requires s != ""
    ensures DeltaFragment(JObj(choice)) == Some(JStr(s)) <==> Says(choice, "delta", s)
  {
  }

  /** An exception escapes exactly when the payload's choices are malformed. */
  lemma FragmentRaises(data: string)
    ensures Fragment(data) == None <==>
              var payload := Loads(data);
              payload.Some? && payload.value.JObj? && var choices := Get(payload.value.fields, "choices");
              choices.Some? && Malformed(choices.value)
  {
  }

  /** What one event adds to the collected fragments. */
  function Added(data: string): Option<seq<Json>> {
    if data == "[DONE]" then Some([])
    else
      var fragment := Fragment(data);
      if fragment.None? then None else Some(if Holds(fragment.value) then [fragment.value] else [])
  }

  ghost predicate Adds(add: string -> Option<seq<Json>>, data: string) {
    add(data) == Added(data)
  }

  /** The loop over the events. `add` names what one event adds; `None` when one of them raises. */
  method CollectFragments(events: seq<string>, ghost add: string -> Option<seq<Json>>) returns (fragments: Option<seq<Json>>)
    requires forall data :: Adds(add, data)
    ensures fragments == Collected(events, add)
  {
    fragments := Some([]);
    for k := 0 to |events|
      invariant fragments == Collected(events[..k], add) && fragments.Some?
    {
      CollectedNext(events, k, add);
      assert Adds(add, events[k]);
      var more := TakeFragment(events[k], add);
      if more.None? {
        CollectedRaises(events, k + 1, add);
        return None;
      }
      fragments := Some(fragments.value + more.value);
    }
    assert events[..|events|] == events;
  }

  method TakeFragment(data: string, ghost add: string -> Option<seq<Json>>) returns (more: Option<seq<Json>>)
    requires Adds(add, data)
    ensures more == add(data)
  {
    if data == "[DONE]" {
      return Some([]);
    }
    var fragment := Fragment(data);
    if fragment.None? {
      return None;
    }
    more := Some(if Holds(fragment.value) then [fragment.value] else []);
  }

  function Collected(events: seq<string>, add: string -> Option<seq<Json>>): Option<seq<Json>> {
    if events == [] then Some([])
    else
      var before, more := Collected(events[..|events| - 1], add), add(events[|events| - 1]);
      if before.Some? && more.Some? then Some(before.value + more.value) else None
  }

  lemma CollectedNext(events: seq<string>, k: nat, add: string -> Option<seq<Json>>)
    requires k < |events|
    ensures var before, more := Collected(events[..k], add), add(events[k]);
            Collected(events[..k + 1], add) == if before.Some? && more.Some? then Some(before.value + more.value) else None
  {
    assert events[..k + 1][..k] == events[..k];
  }

  lemma {:induction false} CollectedRaises(events: seq<string>, k: nat, add: string -> Option<seq<Json>>)
    requires k <= |events| && Collected(events[..k], add).None?
    ensures Collected(events, add).None?
    decreases |events| - k
  {
    if k < |events| {
      CollectedNext(events, k, add);
      CollectedRaises(events, k + 1, add);
    } else {
      assert events[..k] == events;
    }
  }

  // ---------- The client reads the stand-in stream ----------

  /** One event in front of the rest is one block in front of the rest's. */
  lemma EventBlock(data: string, rest: string)
    requires NoLineFeed(data)
    ensures var b := Split(rest); Split(Event(data) + rest) == Blocks(["data: " + data] + b.parts, b.remainder)
  {
    var line := "data: " + data;
    assert Event(data) + rest == line + ("\n\n" + rest);
    BlockThenRest(line, rest);
  }

  lemma {:induction false} BlockThenRest(line: string, rest: string)
    requires NoLineFeed(line)
    ensures var b := Split(rest); Split(line + ("\n\n" + rest)) == Blocks([line] + b.parts, b.remainder)
  {
    var s := line + ("\n\n" + rest);
    if line == "" {
      assert s == "\n\n" + rest && s[2..] == rest;
    } else {
      assert s[0] == line[0] && s[1..] == line[1..] + ("\n\n" + rest);
      BlockThenRest(line[1..], rest);
      assert line == [line[0]] + line[1..];
    }
  }

  /** A block of one data line delivers its value. */
  lemma LineDelivers(line: string, parts: seq<string>)
    requires NoLineFeed(line) && CarriesData(line)
    ensures DataOf([line] + parts) == [Strip(line[5..])] + DataOf(parts)
  {
    LineIsLines(line);
    OneDataLine(line);
    assert ([line] + parts)[1..] == parts;
  }

  predicate Sendable(data: string) {
    NoLineFeed(data) && '\r' !in data && Strip(" " + data) == data
  }

  function Events(data: seq<string>): seq<string> {
    seq(|data|, i requires 0 <= i < |data| => Event(data[i]))
  }

  /** A parse of the text delivers just these values, to its end. */
  predicate Delivers(s: string, data: seq<string>) {
    var b := Split(s); DataOf(b.parts) == data && b.remainder == "" && '\r' !in s
  }

  lemma WholeLine(lead: string, data: string, line: string)
    requires line == lead + data && NoLineFeed(lead) && NoLineFeed(data) && '\r' !in lead && '\r' !in data
    ensures NoLineFeed(line) && '\r' !in line
  {
  }

  lemma LineValue(data: string, line: string)
    requires Strip(" " + data) == data && "data:" <= line && line[5..] == " " + data
    ensures CarriesData(line) && Strip(line[5..]) == data
  {
    DataPrefixIs(line);
  }

  lemma EventLine(data: string, line: string)
    requires NoLineFeed(data) && '\r' !in data && line == "data: " + data
    ensures NoLineFeed(line) && '\r' !in line
  {
    WholeLine("data: ", data, line);
  }

  lemma BlockDelivered(e: string, line: string, data: string, rest: string, more: seq<string>)
    requires '\r' !in e && Delivers(rest, more)
    requires Split(e + rest) == Blocks([line] + Split(rest).parts, Split(rest).remainder)
    requires DataOf([line] + Split(rest).parts) == [data] + DataOf(Split(rest).parts)
    ensures Delivers(e + rest, [data] + more)
  {
  }

  lemma EventNoReturn(data: string, line: string)
    requires line == "data: " + data && '\r' !in line
    ensures '\r' !in Event(data)
  {
    assert Event(data) == line + "\n\n";
  }

  lemma EventDelivered(data: string, rest: string, more: seq<string>, line: string)
    requires Sendable(data) && Delivers(rest, more) && line == "data: " + data
    ensures Delivers(Event(data) + rest, [data] + more)
  {
    EventBlock(data, rest);
    EventLine(data, line);
    DataPrefix(data);
    LineValue(data, line);
    LineDelivers(line, Split(rest).parts);
    EventNoReturn(data, line);
    BlockDelivered(Event(data), line, data, rest, more);
  }

  /** A stream of such events is read back as their values. */
  lemma {:induction false} EventsRead(data: seq<string>)
    requires forall i :: 0 <= i < |data| ==> Sendable(data[i])
    ensures Delivers(Concat(Events(data)), data)
  {
    if data != [] {
      EventsRead(data[1..]);
      EventsCons(data);
      EventDelivered(data[0], Concat(Events(data[1..])), data[1..], "data: " + data[0]);
      assert data == [data[0]] + data[1..];
    }
  }

  lemma EventsCons(data: seq<string>)
    requires data != []
    ensures Concat(Events(data)) == Event(data[0]) + Concat(Events(data[1..]))
  {
    assert Events(data)[1..] == Events(data[1..]);
  }

  /** However it is cut into chunks. */
  lemma ChunksRead(data: seq<string>, chunks: seq<string>)
    requires (forall i :: 0 <= i < |data| ==> Sendable(data[i])) && Concat(chunks) == Concat(Events(data))
    ensures var state := FeedAll(NonEmpty(chunks)); DataOf(state.parts) == data && state.remainder == ""
  {
    EventsRead(data);
    ConcatSkipsEmpty(chunks);
    var stream := Concat(NonEmpty(chunks));
    ReplaceCrLfFixed(stream);
    if NonEmpty(chunks) != [] {
      ConcatNonEmpty(NonEmpty(chunks));
      NoCarriage(stream[..|stream| - 1]);
      FeedAllIsParse(NonEmpty(chunks));
    }
  }

  lemma {:induction false} NoCarriage(s: string)
    requires '\r' !in s
    ensures !HasCrCrLf(s)
  {
    if |s| >= 3 {
      NoCarriage(s[1..]);
    }
  }

  /** What the client takes from a payload with one choice. */
  lemma PayloadFragment(data: string, fields: seq<Member>, choice: Json)
    requires Loads(data) == Some(JObj(fields)) && Get(fields, "choices") == Some(JArr([choice]))
    ensures Fragment(data) == DeltaFragment(choice)
  {
  }

  lemma ChoiceHas(delta: seq<Member>, finish: Json)
    ensures Choice(delta, finish).JObj? && Get(Choice(delta, finish).fields, "delta") == Some(JObj(delta))
  {
    GetLater(Choice(delta, finish).fields, "delta");
  }

  lemma NoDeltaFragment(choice: Json)
    requires choice.JObj? && Get(choice.fields, "delta") == Some(JObj([]))
    ensures DeltaFragment(choice) == Some(JStr(""))
  {
  }

  lemma TextFragment(choice: Json, delta: seq<Member>, text: string)
    requires choice.JObj? && Get(choice.fields, "delta") == Some(JObj(delta)) && delta != []
    requires Get(delta, "content") == Some(JStr(text)) && text != ""
    ensures DeltaFragment(choice) == Some(JStr(text))
  {
  }

  /** What the stand-in stream's payloads are as texts. */
  function Payload(r: Reply, delta: seq<Member>, finish: Json): string {
    Dumps(ChunkPayload(r, delta, finish), Spaced)
  }

  function Content(text: string): seq<Member> {
    [Member("content", JStr(text))]
  }

  lemma PayloadReadsBack(r: Reply, delta: seq<Member>, finish: Json)
    requires Unambiguous(JObj(delta)) && Unambiguous(finish)
    ensures ChunkPayload(r, delta, finish).JObj?
    ensures Loads(Payload(r, delta, finish)) == Some(ChunkPayload(r, delta, finish))
    ensures Get(ChunkPayload(r, delta, finish).fields, "choices") == Some(JArr([Choice(delta, finish)]))
  {
    PayloadUnambiguous(r, delta, finish);
    LoadsDumps(ChunkPayload(r, delta, finish), Spaced);
    PayloadChoices(r, delta, finish);
  }

  lemma PayloadSendable(r: Reply, delta: seq<Member>, finish: Json)
    ensures Sendable(Payload(r, delta, finish)) && Payload(r, delta, finish) != ""
    ensures Payload(r, delta, finish)[0] == '{'
  {
    var j := ChunkPayload(r, delta, finish);
    PayloadStripped(j);
    WriteWithout(j, Spaced, "", '\n');
    WriteWithout(j, Spaced, "", '\r');
  }

  lemma ObjectIsNotDone(data: string)
    requires data != "" && data[0] == '{'
    ensures data != "[DONE]"
  {
    assert "[DONE]"[0] == '[';
  }

  lemma FragmentOf(r: Reply, delta: seq<Member>, finish: Json)
    requires Unambiguous(JObj(delta)) && Unambiguous(finish)
    ensures Fragment(Payload(r, delta, finish)) == DeltaFragment(Choice(delta, finish)) && Payload(r, delta, finish) != "[DONE]"
  {
    PayloadReadsBack(r, delta, finish);
    PayloadSendable(r, delta, finish);
    ObjectIsNotDone(Payload(r, delta, finish));
    PayloadFragment(Payload(r, delta, finish), ChunkPayload(r, delta, finish).fields, Choice(delta, finish));
  }

  lemma AddedWhen(data: string, fragment: Json)
    requires Fragment(data) == Some(fragment) && data != "[DONE]"
    ensures Added(data) == Some(if Holds(fragment) then [fragment] else [])
  {
  }

  lemma AddedText(r: Reply, text: string)
    requires text != ""
    ensures Added(Payload(r, Content(text), JNull)) == Some([JStr(text)])
  {
    var delta := Content(text);
    DeltaUnambiguous(text);
    ChoiceHas(delta, JNull);
    GetOne(delta[0], "content");
    TextFragment(Choice(delta, JNull), delta, text);
    FragmentOf(r, delta, JNull);
    AddedWhen(Payload(r, delta, JNull), JStr(text));
  }

  lemma AddedNothing(r: Reply, delta: seq<Member>, finish: Json)
    requires delta == [] && finish.JStr?
    ensures Added(Payload(r, delta, finish)) == Some([])
  {
    ChoiceHas(delta, finish);
    NoDeltaFragment(Choice(delta, finish));
    FragmentOf(r, delta, finish);
    AddedWhen(Payload(r, delta, finish), JStr(""));
  }

  function Payloads(r: Reply, deltas: seq<string>): seq<string> {
    seq(|deltas|, i requires 0 <= i < |deltas| => Payload(r, Content(deltas[i]), JNull))
  }

  function Texts(deltas: seq<string>): seq<Json> {
    seq(|deltas|, i requires 0 <= i < |deltas| => JStr(deltas[i]))
  }

  predicate AddsText(add: string -> Option<seq<Json>>, data: string, text: string) {
    add(data) == Some([JStr(text)])
  }

  lemma {:induction false} TextsCollected(data: seq<string>, texts: seq<string>, add: string -> Option<seq<Json>>)
    requires |data| == |texts| && forall i :: 0 <= i < |data| ==> AddsText(add, data[i], texts[i])
    ensures Collected(data, add) == Some(Texts(texts))
  {
    if data != [] {
      var n := |data| - 1;
      TextsCollected(data[..n], texts[..n], add);
      assert AddsText(add, data[n], texts[n]);
      assert Texts(texts) == Texts(texts[..n]) + [JStr(texts[n])];
    }
  }

  lemma EndCollected(data: seq<string>, final: string, done: string, add: string -> Option<seq<Json>>)
    requires add(final) == Some([]) && add(done) == Some([])
    ensures Collected(data + [final, done], add) == Collected(data, add)
  {
    var all := data + [final, done];
    CollectedNext(all, |data|, add);
    CollectedNext(all, |data| + 1, add);
    assert all[..|data|] == data && all[..|data| + 2] == all;
    if Collected(data, add).Some? {
      assert Collected(data, add).value + [] + [] == Collected(data, add).value;
    }
  }

  /** The texts that the stand-in stream sends, and its events. */
  lemma StreamIsEvents(r: Reply, deltas: seq<string>, final: string, mark: string)
    ensures Events(Payloads(r, deltas) + [final, mark]) == DeltaEvents(r, deltas) + [Event(final), Event(mark)]
  {
    DeltaEventsAt(r, deltas);
    forall i | 0 <= i < |deltas|
      ensures Event(Payloads(r, deltas)[i]) == DeltaEvent(r, deltas[i])
    {
    }
  }

  lemma MarkOneLine(mark: string)
    requires DoneMark(mark)
    ensures NoLineFeed(mark) && '\r' !in mark
  {
  }

  lemma BlankSendable(data: string)
    requires data != "" && !IsSpace(data[0]) && !IsSpace(data[|data| - 1]) && NoLineFeed(data) && '\r' !in data
    ensures Sendable(data)
  {
    BlankStripped(data);
  }

  lemma MarkEnds(mark: string)
    requires DoneMark(mark)
    ensures mark != "" && !IsSpace(mark[0]) && !IsSpace(mark[|mark| - 1])
  {
  }

  lemma MarkSendable(mark: string)
    requires DoneMark(mark)
    ensures Sendable(mark)
  {
    MarkOneLine(mark);
    MarkEnds(mark);
    BlankSendable(mark);
  }

  lemma AllSendable(r: Reply, deltas: seq<string>, finish: Json, mark: string)
    requires Sendable(mark)
    ensures var data := Payloads(r, deltas) + [Payload(r, [], finish), mark];
            forall i :: 0 <= i < |data| ==> Sendable(data[i])
  {
    var data := Payloads(r, deltas) + [Payload(r, [], finish), mark];
    forall i | 0 <= i < |data|
      ensures Sendable(data[i])
    {
      if i < |deltas| {
        PayloadSendable(r, Content(deltas[i]), JNull);
      } else if i == |deltas| {
        PayloadSendable(r, [], finish);
      }
    }
  }

  /** What is collected from the stand-in stream, for a reader of which only what it adds is known. */
  lemma StandInCollected(r: Reply, deltas: seq<string>, finish: Json, mark: string, add: string -> Option<seq<Json>>)
    requires forall data :: Adds(add, data)
    requires finish.JStr? && add(mark) == Some([]) && forall i :: 0 <= i < |deltas| ==> deltas[i] != ""
    ensures Collected(Payloads(r, deltas) + [Payload(r, [], finish), mark], add) == Some(Texts(deltas))
  {
    var data := Payloads(r, deltas);
    forall i | 0 <= i < |deltas|
      ensures AddsText(add, data[i], deltas[i])
    {
      AddedText(r, deltas[i]);
      assert Adds(add, data[i]);
    }
    TextsCollected(data, deltas, add);
    AddedNothing(r, [], finish);
    assert Adds(add, Payload(r, [], finish));
    EndCollected(data, Payload(r, [], finish), mark, add);
  }

  lemma StandInEvents(r: Reply, content: string, finish: Json, mark: string)
    requires finish == JStr("stop") && mark == "[DONE]"
    ensures FakeStream(r, content) == Events(Payloads(r, Deltas(content)) + [Payload(r, [], finish), mark])
  {
    StreamIsEvents(r, Deltas(content), Payload(r, [], finish), mark);
  }

  lemma MarkReads(mark: string, add: string -> Option<seq<Json>>)
    requires mark == "[DONE]" && Adds(add, mark)
    ensures Sendable(mark) && add(mark) == Some([])
  {
    MarkSendable(mark);
  }

  lemma ReadsWith(r: Reply, deltas: seq<string>, finish: Json, mark: string, chunks: seq<string>, add: string -> Option<seq<Json>>)
    requires (forall data :: Adds(add, data)) && finish.JStr? && Sendable(mark) && add(mark) == Some([])
    requires forall i :: 0 <= i < |deltas| ==> deltas[i] != ""
    requires Concat(chunks) == Concat(Events(Payloads(r, deltas) + [Payload(r, [], finish), mark]))
    ensures var state := FeedAll(NonEmpty(chunks));
            Collected(DataOf(state.parts), add) == Some(Texts(deltas)) && state.remainder == ""
  {
    AllSendable(r, deltas, finish, mark);
    ChunksRead(Payloads(r, deltas) + [Payload(r, [], finish), mark], chunks);
    StandInCollected(r, deltas, finish, mark, add);
  }

  /**
  The verification client reads the stand-in stream right: whatever the content, the id and the model name
  say, and however the stream is cut into chunks, what it collects are the slices of the content, in order,
  and nothing is left over.
  */
  lemma ClientReadsStandIn(r: Reply, content: string, chunks: seq<string>, add: string -> Option<seq<Json>>)
    requires Concat(chunks) == Concat(FakeStream(r, content)) && forall data :: Adds(add, data)
    ensures var state := FeedAll(NonEmpty(chunks));
            Collected(DataOf(state.parts), add) == Some(Texts(Deltas(content))) && state.remainder == ""
    ensures Concat(Deltas(content)) == content
  {
    DeltasConcat(content);
    DeltasShort(content);
    StandInEvents(r, content, JStr("stop"), "[DONE]");
    MarkReads("[DONE]", add);
    ReadsWith(r, Deltas(content), JStr("stop"), "[DONE]", chunks, add);
  }

  /** Characters `2k` and, if there is one, `2k + 1`. */
  predicate SliceAt(content: string, k: nat, slice: string) {
    2 * k < |content| && slice == if 2 * k + 2 <= |content| then content[2 * k..2 * k + 2] else content[2 * k..]
  }

  lemma SliceLater(content: string, k: nat, slice: string)
    requires |content| > 2 && SliceAt(content[2..], k, slice)
    ensures SliceAt(content, k + 1, slice)
  {
  }

  lemma DeltasNext(content: string)
    requires content != ""
    ensures Deltas(content) == if |content| > 2 then [content[..2]] + Deltas(content[2..]) else [content]
  {
    if |content| <= 2 {
      assert content[..|content|] == content && content[|content|..] == "";
    }
  }

  /** The slices of a content, in order. */
  predicate Slices(content: string, slices: seq<string>) {
    |slices| == (|content| + 1) / 2 && forall k :: 0 <= k < |slices| ==> SliceAt(content, k, slices[k])
  }

  lemma SlicesNext(content: string, rest: seq<string>)
    requires |content| > 2 && Slices(content[2..], rest)
    ensures Slices(content, [content[..2]] + rest)
  {
    var all := [content[..2]] + rest;
    forall k | 0 < k < |all|
      ensures SliceAt(content, k, all[k])
    {
      SliceLater(content, k - 1, rest[k - 1]);
    }
  }

  /** The slices sent have two characters each, but for the last one of an odd content. */
  lemma {:induction false} SlicesOfTwo(content: string)
    ensures Slices(content, Deltas(content))
    decreases |content|
  {
    if content != "" {
      DeltasNext(content);
      if |content| > 2 {
        SlicesOfTwo(content[2..]);
        SlicesNext(content, Deltas(content[2..]));
      }
    }
  }
}
