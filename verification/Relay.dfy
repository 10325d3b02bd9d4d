/**
The request-side text handling of the chat relay: which text of a request is scanned, and how a request
is desensitized. `mask` stands for applying all the desensitizing patterns to one string.
*/
module Relay {
  import opened Options
  import opened Json
  import opened Text

  /** The patterns in force: none, or some whose combined effect on a string is `mask`. */
  datatype Rules = NoRules | Rules(mask: string -> string)

  /** The roles whose text is scanned and desensitized. */
  predicate ClientRole(role: Option<Json>) {
    role == Some(JStr("user")) || role == Some(JStr("tool")) || role == Some(JStr("function"))
  }

  // ---------- Desensitizing ----------

  function DesensitizeContent(content: Json, mask: string -> string): Json
    decreases content, 1
  {
    match content
    case JStr(s) => JStr(mask(s))
    case JArr(items) => JArr(seq(|items|, i requires 0 <= i < |items| => DesensitizePart(items[i], mask)))
    case _ => content
  }

  function DesensitizeText(fields: seq<Member>, mask: string -> string): seq<Member> {
    var text := Get(fields, "text");
    if text.Some? && text.value.JStr? then Set(fields, "text", JStr(mask(text.value.s))) else fields
  }

  function DesensitizePart(part: Json, mask: string -> string): Json
    decreases part, 0
  {
    match part
    case JStr(s) => JStr(mask(s))
    case JObj(fields) =>
      var first := DesensitizeText(fields, mask);
      var content := Get(fields, "content");
      JObj(if content.Some? then Set(first, "content", DesensitizeContent(content.value, mask)) else first)
    case _ => part
  }

  function DesensitizeMessage(message: Json, mask: string -> string): Json {
    if message.JObj? && ClientRole(Get(message.fields, "role")) then
      var content := Get(message.fields, "content");
      JObj(Set(message.fields, "content", DesensitizeContent(if content.Some? then content.value else JNull, mask)))
    else message
  }

  function DesensitizeMessages(messages: seq<Json>, rules: Rules): (r: seq<Json>)
    ensures |r| == |messages|
  {
    match rules
    case NoRules => messages
    case Rules(mask) => seq(|messages|, i requires 0 <= i < |messages| => DesensitizeMessage(messages[i], mask))
  }

  /** `desensitize_chat_request_body`: only the `messages` list changes, message by message. */
  function DesensitizeBody(body: seq<Member>, rules: Rules): seq<Member> {
    var messages := Get(body, "messages");
    if messages.Some? && messages.value.JArr? then
      Set(body, "messages", JArr(DesensitizeMessages(messages.value.items, rules)))
    else body
  }

  function Desensitizer(mask: string -> string): Json -> Json {
    message => DesensitizeMessage(message, mask)
  }

  lemma DesensitizedPointwise(messages: seq<Json>, r: seq<Json>, mask: string -> string)
    requires |r| == |messages| && forall i :: 0 <= i < |r| ==> r[i] == Desensitizer(mask)(messages[i])
    ensures r == DesensitizeMessages(messages, Rules(mask))
  {
    forall i | 0 <= i < |r|
      ensures r[i] == DesensitizeMessages(messages, Rules(mask))[i]
    {
    }
  }

  /** What becomes of one member of a request body: only the `messages` list changes. */
  lemma BodyMember(body: seq<Member>, rules: Rules, key: string)
    ensures var was, now := Get(body, key), Get(DesensitizeBody(body, rules), key);
            now == if key == "messages" && was.Some? && was.value.JArr?
                   then Some(JArr(DesensitizeMessages(was.value.items, rules))) else was
  {
    var messages := Get(body, "messages");
    if messages.Some? && messages.value.JArr? {
      GetSet(body, "messages", JArr(DesensitizeMessages(messages.value.items, rules)), key);
    }
  }

  /** The loop of `desensitize_chat_request_body`, which rewrites a copy of the list in place. */
  method DesensitizeInPlace(messages: array<Json>, rules: Rules)
    modifies messages
    ensures messages[..] == DesensitizeMessages(old(messages[..]), rules)
  {
    if rules.Rules? {
      RewriteInPlace(messages, Desensitizer(rules.mask));
      DesensitizedPointwise(old(messages[..]), messages[..], rules.mask);
    }
  }

  method RewriteInPlace(messages: array<Json>, f: Json -> Json)
    modifies messages
    ensures forall i :: 0 <= i < messages.Length ==> messages[i] == f(old(messages[i]))
  {
    for k := 0 to messages.Length
      invariant forall i :: 0 <= i < k ==> messages[i] == f(old(messages[i]))
      invariant forall i :: k <= i < messages.Length ==> messages[i] == old(messages[i])
    {
      messages[k] := f(messages[k]);
    }
  }

  // ---------- Desensitizing repeats no key ----------

  lemma SetUnambiguous(fields: seq<Member>, key: string, value: Json)
    requires Unambiguous(JObj(fields)) && Unambiguous(value)
    ensures Unambiguous(JObj(Set(fields, key, value)))
  {
    SetKeepsDistinct(fields, key, value);
    SetKeepsValues(fields, key, value);
  }

  lemma GetUnambiguous(fields: seq<Member>, key: string)
    requires Unambiguous(JObj(fields)) && Get(fields, key).Some?
    ensures Unambiguous(Get(fields, key).value)
  {
    var i :| 0 <= i < |fields| && fields[i] == Member(key, Get(fields, key).value);
  }

  lemma {:induction false} ContentUnambiguous(content: Json, mask: string -> string)
    requires Unambiguous(content)
    ensures Unambiguous(DesensitizeContent(content, mask))
    decreases content, 1
  {
    if content.JArr? {
      forall i | 0 <= i < |content.items|
        ensures Unambiguous(DesensitizePart(content.items[i], mask))
      {
        PartUnambiguous(content.items[i], mask);
      }
    }
  }

  lemma TextUnambiguous(fields: seq<Member>, mask: string -> string)
    requires Unambiguous(JObj(fields))
    ensures Unambiguous(JObj(DesensitizeText(fields, mask)))
  {
    var text := Get(fields, "text");
    if text.Some? && text.value.JStr? {
      SetUnambiguous(fields, "text", JStr(mask(text.value.s)));
    }
  }

  lemma {:induction false} PartUnambiguous(part: Json, mask: string -> string)
    requires Unambiguous(part)
    ensures Unambiguous(DesensitizePart(part, mask))
    decreases part, 0
  {
    if part.JObj? {
      var content := Get(part.fields, "content");
      TextUnambiguous(part.fields, mask);
      if content.Some? {
        GetUnambiguous(part.fields, "content");
        ContentUnambiguous(content.value, mask);
        SetUnambiguous(DesensitizeText(part.fields, mask), "content", DesensitizeContent(content.value, mask));
      }
    }
  }

  lemma MessageUnambiguous(message: Json, mask: string -> string)
    requires Unambiguous(message)
    ensures Unambiguous(DesensitizeMessage(message, mask))
  {
    if message.JObj? && ClientRole(Get(message.fields, "role")) {
      var content := Get(message.fields, "content");
      if content.Some? { GetUnambiguous(message.fields, "content"); }
      var value := if content.Some? then content.value else JNull;
      ContentUnambiguous(value, mask);
      SetUnambiguous(message.fields, "content", DesensitizeContent(value, mask));
    }
  }

  lemma MessagesUnambiguous(messages: seq<Json>, rules: Rules)
    requires forall i :: 0 <= i < |messages| ==> Unambiguous(messages[i])
    ensures forall i :: 0 <= i < |messages| ==> Unambiguous(DesensitizeMessages(messages, rules)[i])
  {
    if rules.Rules? {
      forall i | 0 <= i < |messages|
        ensures Unambiguous(DesensitizeMessages(messages, rules)[i])
      {
        MessageUnambiguous(messages[i], rules.mask);
      }
    }
  }

  // ---------- Extracting ----------

  function ContentParts(content: Json): seq<string>
    decreases content, 1
  {
    match content
    case JStr(s) => [s]
    case JArr(items) => PartsOfItems(items)
    case _ => []
  }

  function PartsOfItems(items: seq<Json>): seq<string>
    decreases items, 0
  {
    if items == [] then [] else PartsOfItem(items[0]) + PartsOfItems(items[1..])
  }

  function PartsOfItem(item: Json): seq<string>
    decreases item, 0
  {
    match item
    case JStr(s) => [s]
    case JObj(fields) =>
      var text := Get(fields, "text");
      var content := Get(fields, "content");
      if text.Some? && text.value.JStr? then [text.value.s]
      else if content.Some? then ContentParts(content.value)
      else []
    case _ => []
  }

  function NonEmpty(parts: seq<string>): seq<string> {
    if parts == [] then [] else (if parts[0] != "" then [parts[0]] else []) + NonEmpty(parts[1..])
  }

  /** The text of one message, `""` when its role is not scanned. */
  function MessageParts(message: Json): seq<string> {
    if message.JObj? && ClientRole(Get(message.fields, "role")) then
      var content := Get(message.fields, "content");
      NonEmpty(ContentParts(if content.Some? then content.value else JNull))
    else []
  }

  /** Position of the last message with scanned text, -1 when there is none. */
  function LatestMessage(messages: seq<Json>): (k: int)
    ensures -1 <= k < |messages|
    ensures k >= 0 ==> MessageParts(messages[k]) != []
    ensures forall i :: k < i < |messages| ==> MessageParts(messages[i]) == []
  {
    if messages == [] then -1
    else
      var n := |messages| - 1;
      if MessageParts(messages[n]) != [] then n
      else
        assert forall i :: 0 <= i < n ==> messages[i] == messages[..n][i];
        LatestMessage(messages[..n])
  }

  /** `extract_latest_text_from_messages`. */
  function LatestText(messages: seq<Json>): string {
    var k := LatestMessage(messages);
    if k < 0 then "" else Join("\n", MessageParts(messages[k]))
  }

  lemma {:induction false} JoinNonEmpty(parts: seq<string>)
    requires forall i :: 0 <= i < |parts| ==> parts[i] != ""
    ensures Join("\n", parts) == "" <==> parts == []
  {
  }

  lemma NonEmptyHasNoEmpty(parts: seq<string>)
    ensures forall i :: 0 <= i < |NonEmpty(parts)| ==> NonEmpty(parts)[i] != ""
  {
  }

  lemma NoTextNoParts(message: Json)
    ensures Join("\n", MessageParts(message)) == "" <==> MessageParts(message) == []
  {
    if message.JObj? {
      var content := Get(message.fields, "content");
      NonEmptyHasNoEmpty(ContentParts(if content.Some? then content.value else JNull));
      JoinNonEmpty(MessageParts(message));
    }
  }

  /** The text of one message; a message of another role is passed over. */
  function ScannedText(message: Json): string {
    if !message.JObj? || !ClientRole(Get(message.fields, "role")) then "" else Join("\n", MessageParts(message))
  }

  lemma ScannedTextIs(message: Json)
    ensures ScannedText(message) == Join("\n", MessageParts(message))
    ensures ScannedText(message) == "" <==> Wordless(message)
  {
    NoTextNoParts(message);
  }

  predicate Wordless(message: Json) {
    MessageParts(message) == []
  }

  lemma LatestIs(messages: seq<Json>, k: nat)
    requires k < |messages| && !Wordless(messages[k]) && forall i :: k < i < |messages| ==> Wordless(messages[i])
    ensures LatestText(messages) == Join("\n", MessageParts(messages[k]))
  {
    LatestPosition(messages, k);
  }

  lemma LatestPosition(messages: seq<Json>, k: nat)
    requires k < |messages| && !Wordless(messages[k]) && forall i :: k < i < |messages| ==> Wordless(messages[i])
    ensures LatestMessage(messages) == k
  {
    var m := LatestMessage(messages);
    LatestSpeaks(messages, m);
  }

  lemma LatestSpeaks(messages: seq<Json>, m: int)
    requires m == LatestMessage(messages)
    ensures -1 <= m < |messages| && (m >= 0 ==> !Wordless(messages[m])) && forall i :: m < i < |messages| ==> Wordless(messages[i])
  {
  }

  lemma NoLatest(messages: seq<Json>)
    requires forall i :: 0 <= i < |messages| ==> Wordless(messages[i])
    ensures LatestText(messages) == ""
  {
    var m := LatestMessage(messages);
    assert m >= 0 ==> !Wordless(messages[m]);
  }

  /** The loop of `extract_latest_text_from_messages`. */
  method ExtractLatestText(messages: seq<Json>) returns (text: string)
    ensures text == LatestText(messages)
  {
    for k := |messages| downto 0
      invariant forall i :: k <= i < |messages| ==> Wordless(messages[i])
    {
      text := ScannedText(messages[k]);
      ScannedTextIs(messages[k]);
      if text != "" {
        LatestIs(messages, k);
        return;
      }
    }
    text := "";
    NoLatest(messages);
  }

  // ---------- Extraction commutes with desensitizing ----------

  function MaskAll(parts: seq<string>, mask: string -> string): (r: seq<string>)
    ensures |r| == |parts| && forall i :: 0 <= i < |parts| ==> r[i] == mask(parts[i])
  {
    seq(|parts|, i requires 0 <= i < |parts| => mask(parts[i]))
  }

  /** The parts of desensitized content are the desensitized parts, however deeply content nests. */
  lemma {:induction false} PartsCommute(content: Json, mask: string -> string)
    ensures ContentParts(DesensitizeContent(content, mask)) == MaskAll(ContentParts(content), mask)
    decreases content, 1
  {
    if content.JArr? {
      ItemsCommute(content.items, mask);
    }
  }

  lemma MaskAllConcat(a: seq<string>, b: seq<string>, mask: string -> string)
    ensures MaskAll(a + b, mask) == MaskAll(a, mask) + MaskAll(b, mask)
  {
  }

  lemma MaskedTail(items: seq<Json>, mask: string -> string)
    requires items != []
    ensures var masked := DesensitizeContent(JArr(items), mask).items;
            && masked != [] && masked[0] == DesensitizePart(items[0], mask)
            && masked[1..] == DesensitizeContent(JArr(items[1..]), mask).items
  {
  }

  lemma {:induction false} ItemsCommute(items: seq<Json>, mask: string -> string)
    ensures PartsOfItems(DesensitizeContent(JArr(items), mask).items) == MaskAll(PartsOfItems(items), mask)
    decreases items, 0
  {
    var masked := DesensitizeContent(JArr(items), mask).items;
    if items != [] {
      MaskedTail(items, mask);
      MaskAllConcat(PartsOfItem(items[0]), PartsOfItems(items[1..]), mask);
      ItemCommutes(items[0], mask);
      ItemsCommute(items[1..], mask);
    }
  }

  lemma TextFields(fields: seq<Member>, mask: string -> string)
    ensures var text := Get(fields, "text");
            Get(DesensitizeText(fields, mask), "text")
            == if text.Some? && text.value.JStr? then Some(JStr(mask(text.value.s))) else text
    ensures Get(DesensitizeText(fields, mask), "content") == Get(fields, "content")
  {
    var text := Get(fields, "text");
    if text.Some? && text.value.JStr? {
      GetSet(fields, "text", JStr(mask(text.value.s)), "text");
      GetSet(fields, "text", JStr(mask(text.value.s)), "content");
    }
  }

  lemma SetContent(fields: seq<Member>, value: Json)
    ensures Get(Set(fields, "content", value), "text") == Get(fields, "text")
    ensures Get(Set(fields, "content", value), "content") == Some(value)
  {
    GetSet(fields, "content", value, "text");
    GetSet(fields, "content", value, "content");
  }

  /** What desensitizing does to the two members of a part that are read. */
  lemma PartFields(fields: seq<Member>, mask: string -> string)
    ensures var r := DesensitizePart(JObj(fields), mask);
            var text, content := Get(fields, "text"), Get(fields, "content");
            && r.JObj?
            && Get(r.fields, "text") == (if text.Some? && text.value.JStr? then Some(JStr(mask(text.value.s))) else text)
            && Get(r.fields, "content") ==
               if content.Some? then Some(DesensitizeContent(content.value, mask)) else None
  {
    var content := Get(fields, "content");
    TextFields(fields, mask);
    if content.Some? {
      SetContent(DesensitizeText(fields, mask), DesensitizeContent(content.value, mask));
    }
  }

  lemma {:induction false} ItemCommutes(item: Json, mask: string -> string)
    ensures PartsOfItem(DesensitizePart(item, mask)) == MaskAll(PartsOfItem(item), mask)
    decreases item, 0
  {
    if item.JObj? {
      PartFields(item.fields, mask);
      var content := Get(item.fields, "content");
      if content.Some? {
        PartsCommute(content.value, mask);
      }
    }
  }

  /** Masking never empties a string or fills an empty one. */
  ghost predicate KeepsEmptiness(mask: string -> string) {
    forall s :: mask(s) == "" <==> s == ""
  }

  lemma {:induction false} NonEmptyCommutes(parts: seq<string>, mask: string -> string)
    requires KeepsEmptiness(mask)
    ensures NonEmpty(MaskAll(parts, mask)) == MaskAll(NonEmpty(parts), mask)
  {
    if parts != [] {
      assert MaskAll(parts, mask)[1..] == MaskAll(parts[1..], mask);
      NonEmptyCommutes(parts[1..], mask);
    }
  }

  lemma MessageCommutes(message: Json, mask: string -> string)
    requires KeepsEmptiness(mask)
    ensures MessageParts(DesensitizeMessage(message, mask)) == MaskAll(MessageParts(message), mask)
  {
    if message.JObj? && ClientRole(Get(message.fields, "role")) {
      var content := Get(message.fields, "content");
      var value := if content.Some? then content.value else JNull;
      GetSet(message.fields, "content", DesensitizeContent(value, mask), "role");
      GetSet(message.fields, "content", DesensitizeContent(value, mask), "content");
      PartsCommute(value, mask);
      NonEmptyCommutes(ContentParts(value), mask);
    }
  }

  /**
  The latest desensitized text comes from the very message whose text was scanned, and is that message's
  parts, each masked.
  */
  lemma LatestTextCommutes(messages: seq<Json>, mask: string -> string)
    requires KeepsEmptiness(mask)
    ensures var masked := DesensitizeMessages(messages, Rules(mask));
            var k := LatestMessage(messages);
            && LatestMessage(masked) == k
            && LatestText(masked) == if k < 0 then "" else Join("\n", MaskAll(MessageParts(messages[k]), mask))
  {
    var masked := DesensitizeMessages(messages, Rules(mask));
    forall i | 0 <= i < |messages|
      ensures MessageParts(masked[i]) == MaskAll(MessageParts(messages[i]), mask)
    {
      MessageCommutes(messages[i], mask);
    }
    var k, m := LatestMessage(messages), LatestMessage(masked);
    assert m == k;
  }

  /** Messages of roles that are not the client's pass through unchanged. */
  lemma OthersUntouched(message: Json, mask: string -> string)
    requires !message.JObj? || !ClientRole(Get(message.fields, "role"))
    ensures DesensitizeMessage(message, mask) == message
  {
  }

  /** Desensitizing is per message: it distributes over concatenation. */
  lemma DesensitizeConcat(a: seq<Json>, b: seq<Json>, rules: Rules)
    ensures DesensitizeMessages(a + b, rules) == DesensitizeMessages(a, rules) + DesensitizeMessages(b, rules)
  {
    if rules.Rules? {
      MappedConcat(a, b, DesensitizeMessages(a, rules), DesensitizeMessages(b, rules), Desensitizer(rules.mask));
      DesensitizedPointwise(a + b, DesensitizeMessages(a, rules) + DesensitizeMessages(b, rules), rules.mask);
    }
  }

  lemma MappedConcat(a: seq<Json>, b: seq<Json>, fa: seq<Json>, fb: seq<Json>, f: Json -> Json)
    requires |fa| == |a| && |fb| == |b|
    requires (forall i :: 0 <= i < |a| ==> fa[i] == f(a[i])) && forall i :: 0 <= i < |b| ==> fb[i] == f(b[i])
    ensures forall i :: 0 <= i < |a + b| ==> (fa + fb)[i] == f((a + b)[i])
  {
  }
}
