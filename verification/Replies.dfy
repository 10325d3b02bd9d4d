/**
Which archived exchanges become conversations, and with which reply, read off the payload's own fields: the
counterpart of the step-by-step extraction in Training.dfy.
*/
module Replies {
  import opened Options
  import opened Json
  import opened Text
  import opened Relay
  import opened Leaves
  import opened Training

  // ---------- Blank texts ----------

  predicate Blank(s: string) {
    forall i :: 0 <= i < |s| ==> IsSpace(s[i])
  }

  lemma BlankCons(s: string)
    requires s != ""
    ensures Blank(s) <==> IsSpace(s[0]) && Blank(s[1..])
  {
    assert forall i :: 0 < i < |s| ==> s[i] == s[1..][i - 1];
  }

  lemma {:induction false} StripLeftBlank(s: string)
    ensures StripLeft(s) == "" <==> Blank(s)
  {
    if s != "" && IsSpace(s[0]) {
      StripLeftBlank(s[1..]);
      BlankCons(s);
    }
  }

  lemma {:induction false} StripRightBlank(s: string)
    ensures StripRight(s) == "" <==> Blank(s)
  {
    if s != "" && IsSpace(s[|s| - 1]) {
      StripRightBlank(s[..|s| - 1]);
      assert forall i :: 0 <= i < |s| - 1 ==> s[i] == s[..|s| - 1][i];
    }
  }

  lemma StripBlank(s: string)
    ensures Strip(s) == "" <==> Blank(s)
  {
    StripLeftBlank(s);
    StripRightBlank(StripLeft(s));
  }

  lemma {:induction false} ReplaceCrBlank(s: string)
    ensures Blank(ReplaceCr(s)) <==> Blank(s)
  {
    if s != "" {
      ReplaceCrBlank(s[1..]);
      BlankCons(s);
      BlankCons(ReplaceCr(s));
    }
  }

  lemma {:induction false} ReplaceCrLfBlank(s: string)
    ensures Blank(ReplaceCrLf(s)) <==> Blank(s)
  {
    if s != "" {
      BlankCons(s);
      BlankCons(ReplaceCrLf(s));
      if |s| > 1 && s[0] == '\r' && s[1] == '\n' {
        BlankCons(s[1..]);
        assert s[1..][1..] == s[2..];
        ReplaceCrLfBlank(s[2..]);
      } else {
        ReplaceCrLfBlank(s[1..]);
      }
    }
  }

  /** Normalizing leaves nothing of a text exactly when it is blank. */
  lemma NormalizedBlank(s: string)
    ensures NormalizeText(s) == "" <==> Blank(s)
  {
    ReplaceCrLfBlank(s);
    ReplaceCrBlank(ReplaceCrLf(s));
    StripBlank(ReplaceCr(ReplaceCrLf(s)));
  }

  lemma {:induction false} StripLeftIs(s: string)
    ensures var n := |s| - |StripLeft(s)|; 0 <= n && Blank(s[..n]) && StripLeft(s) == s[n..]
  {
    if s != "" && IsSpace(s[0]) {
      StripLeftIs(s[1..]);
      var n := |s| - |StripLeft(s)|;
      BlankCons(s[..n]);
      assert s[..n][1..] == s[1..][..n - 1];
    } else {
      assert s[..0] == "";
    }
  }

  lemma {:induction false} StripRightIs(s: string)
    ensures var n := |StripRight(s)|; n <= |s| && Blank(s[n..]) && StripRight(s) == s[..n]
  {
    if s != "" && IsSpace(s[|s| - 1]) {
      StripRightIs(s[..|s| - 1]);
      var n := |StripRight(s)|;
      assert s[n..] == s[..|s| - 1][n..] + [s[|s| - 1]];
    } else {
      assert s[|s|..] == "";
    }
  }

  /** `t` is what lies between the blank ends of `s`. */
  predicate Trimmed(s: string, t: string) {
    && (exists i, j :: 0 <= i <= j <= |s| && t == s[i..j] && Blank(s[..i]) && Blank(s[j..]))
    && (t != "" ==> !IsSpace(t[0]) && !IsSpace(t[|t| - 1]))
  }

  lemma TrimmedTwice(s: string, t: string, r: string, i: nat)
    requires i <= |s| && t == s[i..] && Blank(s[..i])
    requires |r| <= |t| && r == t[..|r|] && Blank(t[|r|..]) && (r != "" ==> !IsSpace(r[0]) && !IsSpace(r[|r| - 1]))
    ensures Trimmed(s, r)
  {
    var j := i + |r|;
    assert r == s[i..j] && t[|r|..] == s[j..];
  }

  lemma StripTrims(s: string)
    ensures Trimmed(s, Strip(s))
  {
    StripLeftIs(s);
    StripRightIs(StripLeft(s));
    TrimmedTwice(s, StripLeft(s), Strip(s), |s| - |StripLeft(s)|);
  }

  lemma {:induction false} ReplaceCrIs(s: string)
    ensures |ReplaceCr(s)| == |s|
    ensures forall i :: 0 <= i < |s| ==> ReplaceCr(s)[i] == if s[i] == '\r' then '\n' else s[i]
  {
    if s != "" {
      ReplaceCrIs(s[1..]);
    }
  }

  /** Each `\r\n` of a text counts as one line feed: texts between them stay as they are. */
  lemma {:induction false} ReplaceCrLfIs(a: string, s: string)
    requires '\r' !in a
    ensures ReplaceCrLf(a + ("\r\n" + s)) == a + ("\n" + ReplaceCrLf(s))
  {
    var t := a + ("\r\n" + s);
    if a == "" {
      assert t == "\r\n" + s && t[2..] == s;
    } else {
      assert t[0] == a[0] && t[1..] == a[1..] + ("\r\n" + s);
      ReplaceCrLfIs(a[1..], s);
      assert a == [a[0]] + a[1..];
    }
  }

  /** Normalized text is the text with its line ends replaced, between its blank ends; it holds no carriage return. */
  lemma NormalizedIs(s: string)
    ensures Trimmed(ReplaceCr(ReplaceCrLf(s)), NormalizeText(s)) && '\r' !in NormalizeText(s)
  {
    StripTrims(ReplaceCr(ReplaceCrLf(s)));
    NoCrLeft(ReplaceCrLf(s));
    if '\r' in NormalizeText(s) {
      StripWithin(ReplaceCr(ReplaceCrLf(s)), '\r');
    }
  }

  // ---------- The reply ----------

  /** `value` is the object with these members, or a text that holds it. */
  predicate IsObject(value: Json, fields: seq<Member>) {
    value == JObj(fields) || (value.JStr? && value.s != "" && Loads(value.s) == Some(JObj(fields)))
  }

  /** The member is absent, null, false, zero or empty. */
  predicate Falsy(fields: seq<Member>, key: string) {
    var v := Get(fields, key);
    v.Some? ==>
      match v.value
      case JNull => true
      case JBool(b) => !b
      case JInt(n) => n == 0
      case JStr(s) => |s| == 0
      case JArr(items) => |items| == 0
      case JObj(members) => |members| == 0
  }

  /** The member holds something whose text, normalized, is `r`. */
  predicate Holds(fields: seq<Member>, key: string, r: string, repr: Json -> string) {
    !Falsy(fields, key) && var v := Get(fields, key); v.Some? && r == NormalizeText(PyStr(v.value, repr))
  }

  /** `body` is a chat completion whose first choice says `r`. */
  ghost predicate FirstChoiceSays(body: seq<Member>, r: string, repr: Json -> string) {
    exists choices, choice, message ::
      && Get(body, "choices") == Some(JArr(choices)) && choices != [] && choices[0] == JObj(choice)
      && Get(choice, "message") == Some(JObj(message)) && Holds(message, "content", r, repr)
  }

  /**
  The archived response says `r`: it was not cut off, and `r` is what the stream collector gathered or, that
  being nothing, what the first choice of the archived completion says.
  */
  ghost predicate Says(response: Json, r: string, repr: Json -> string) {
    exists fields ::
      && IsObject(response, fields) && Falsy(fields, "truncated")
      && if !Falsy(fields, "message_content") then Holds(fields, "message_content", r, repr)
         else exists content, body ::
                Get(fields, "content") == Some(content) && IsObject(content, body) && FirstChoiceSays(body, r, repr)
  }

  lemma FalsyMeaning(fields: seq<Member>, key: string)
    ensures Falsy(fields, key) <==> !Truthy(GetOr(fields, key, JNull))
  {
  }

  lemma LoadsObject(value: Json, fields: seq<Member>)
    ensures IsObject(value, fields) <==> LoadsJson(value) == JObj(fields)
  {
  }

  lemma HoldsText(fields: seq<Member>, key: string, r: string, repr: Json -> string)
    requires r != ""
    ensures Holds(fields, key, r, repr) <==> NormalizeText(TextOf(GetOr(fields, key, JNull), repr)) == r
  {
    FalsyMeaning(fields, key);
    NormalizedBlank("");
    assert Blank("");
  }

  lemma FirstChoiceExact(body: seq<Member>, r: string, repr: Json -> string)
    requires r != ""
    ensures FirstChoiceSays(body, r, repr) <==> FirstChoice(JObj(body), repr) == r
  {
    var choices := GetOr(body, "choices", JNull);
    if choices.JArr? && choices.items != [] && choices.items[0].JObj? {
      var choice := choices.items[0].fields;
      var message := GetOr(choice, "message", JNull);
      if message.JObj? {
        HoldsText(message.fields, "content", r, repr);
        assert Get(body, "choices") == Some(JArr(choices.items)) && Get(choice, "message") == Some(JObj(message.fields));
      }
    }
  }

  lemma ContentExact(fields: seq<Member>, r: string, repr: Json -> string)
    requires r != ""
    ensures (exists content, body ::
               Get(fields, "content") == Some(content) && IsObject(content, body) && FirstChoiceSays(body, r, repr))
            <==> FirstChoice(LoadsJson(GetOr(fields, "content", JNull)), repr) == r
  {
    var content := GetOr(fields, "content", JNull);
    var loaded := LoadsJson(content);
    if loaded.JObj? {
      LoadsObject(content, loaded.fields);
      FirstChoiceExact(loaded.fields, r, repr);
    }
    if content', body :| Get(fields, "content") == Some(content') && IsObject(content', body) && FirstChoiceSays(body, r, repr) {
      LoadsObject(content', body);
    }
  }

  /** A reply is extracted exactly when the response says it. */
  lemma ReplyExact(response: Json, r: string, repr: Json -> string)
    requires r != ""
    ensures ExtractAssistantResponse(response, repr) == r <==> Says(response, r, repr)
  {
    var loaded := LoadsJson(response);
    if loaded.JObj? {
      var fields := loaded.fields;
      LoadsObject(response, fields);
      ReplyFromFields(fields, r, repr);
    }
    if fields :| IsObject(response, fields) && Falsy(fields, "truncated") {
      LoadsObject(response, fields);
    }
  }

  lemma ReplyFromFields(fields: seq<Member>, r: string, repr: Json -> string)
    requires r != ""
    ensures ReplyFrom(GetOr(fields, "truncated", JNull), GetOr(fields, "message_content", JNull),
                      GetOr(fields, "content", JNull), repr) == r
            <==> && Falsy(fields, "truncated")
                 && if !Falsy(fields, "message_content") then Holds(fields, "message_content", r, repr)
                    else exists content, body ::
                           Get(fields, "content") == Some(content) && IsObject(content, body) && FirstChoiceSays(body, r, repr)
  {
    FalsyMeaning(fields, "truncated");
    FalsyMeaning(fields, "message_content");
    HoldsText(fields, "message_content", r, repr);
    ContentExact(fields, r, repr);
  }

  /** The dictionary that the stream collector hands to the archive. */
  predicate StreamedBody(fields: seq<Member>, content: string, messageContent: string, truncated: bool, archived: int,
                         original: int)
  {
    && Get(fields, "stream") == Some(JBool(true)) && Get(fields, "media_type") == Some(JStr("text/event-stream"))
    && Get(fields, "content") == Some(JStr(content)) && Get(fields, "message_content") == Some(JStr(messageContent))
    && Get(fields, "truncated") == Some(JBool(truncated))
    && Get(fields, "archived_bytes") == Some(JInt(archived)) && Get(fields, "original_bytes") == Some(JInt(original))
  }

  lemma ResponseReply(fields: seq<Member>, repr: Json -> string)
    ensures ExtractAssistantResponse(JObj(fields), repr)
            == ReplyFrom(GetOr(fields, "truncated", JNull), GetOr(fields, "message_content", JNull),
                         GetOr(fields, "content", JNull), repr)
  {
  }

  lemma ReplyFromText(messageContent: string, truncated: bool, content: Json, repr: Json -> string)
    requires truncated || messageContent != ""
    ensures ReplyFrom(JBool(truncated), JStr(messageContent), content, repr)
            == if truncated then "" else NormalizeText(messageContent)
  {
    assert TextOf(JStr(messageContent), repr) == messageContent;
  }

  /** The reply of a streamed turn is the text that its events carried, unless the archive cut the stream off. */
  lemma StreamedReply(fields: seq<Member>, content: string, messageContent: string, truncated: bool, archived: int,
                      original: int, repr: Json -> string)
    requires StreamedBody(fields, content, messageContent, truncated, archived, original) && (truncated || messageContent != "")
    ensures ExtractAssistantResponse(JObj(fields), repr) == if truncated then "" else NormalizeText(messageContent)
  {
    ReplyFromText(messageContent, truncated, JStr(content), repr);
    ResponseReply(fields, repr);
  }

  // ---------- The messages ----------

  /** The text of the role, as `str` gives it, is there and not blank. */
  predicate HasRole(message: Json, repr: Json -> string) {
    message.JObj? && var role := Get(message.fields, "role"); role.Some? && !Blank(PyStr(role.value, repr))
  }

  /** A message with a role is stored with that role and its normalized content, one without is not stored. */
  lemma MessageStored(message: Json, repr: Json -> string)
    ensures !HasRole(message, repr) ==> NormalizeItems([message], repr) == []
    ensures HasRole(message, repr) ==>
              var content := Get(message.fields, "content");
              NormalizeItems([message], repr)
              == [StoredMessage(Strip(PyStr(Get(message.fields, "role").value, repr)),
                                NormalizeContent(if content.Some? then content.value else JNull))]
  {
    NormalizeOne(message, repr);
    StripBlank("");
    assert Blank("");
    if message.JObj? && Get(message.fields, "role").Some? {
      StripBlank(PyStr(Get(message.fields, "role").value, repr));
    }
  }

  ghost predicate SomeRole(messages: seq<Json>, repr: Json -> string) {
    exists i :: 0 <= i < |messages| && HasRole(messages[i], repr)
  }

  lemma SomeRoleLast(messages: seq<Json>, n: nat, repr: Json -> string)
    requires |messages| == n + 1
    ensures SomeRole(messages, repr) <==> SomeRole(messages[..n], repr) || HasRole(messages[n], repr)
  {
    if i :| 0 <= i < |messages[..n]| && HasRole(messages[..n][i], repr) {
      assert HasRole(messages[i], repr);
    }
    if i :| 0 <= i < |messages| && HasRole(messages[i], repr) {
      assert i < n ==> HasRole(messages[..n][i], repr);
    }
  }

  // ---------- Their content ----------

  lemma {:induction false} GetFinds(fields: seq<Member>, i: nat)
    requires DistinctKeys(fields) && i < |fields|
    ensures Get(fields, fields[i].key) == Some(fields[i].value)
  {
    if i > 0 {
      GetFinds(fields[1..], i - 1);
    }
  }

  lemma SortedGet(fields: seq<Member>, key: string)
    requires DistinctKeys(fields)
    ensures Get(SortByKey(fields), key) == Get(fields, key)
  {
    var sorted := SortByKey(fields);
    SortKeepsDistinct(fields);
    if Get(fields, key).Some? {
      assert Member(key, Get(fields, key).value) in multiset(sorted);
      var i :| 0 <= i < |sorted| && sorted[i] == Member(key, Get(fields, key).value);
      GetFinds(sorted, i);
    } else if Get(sorted, key).Some? {
      assert Member(key, Get(sorted, key).value) in multiset(fields);
      var i :| 0 <= i < |fields| && fields[i] == Member(key, Get(sorted, key).value);
      GetFinds(fields, i);
    }
  }

  lemma {:induction false} ValuesGet(fields: seq<Member>, key: string)
    ensures var was := Get(fields, key);
            Get(NormalizeValues(fields), key) == if was.Some? then Some(NormalizeContent(was.value)) else None
  {
    if fields != [] {
      assert NormalizeValues(fields)[1..] == NormalizeValues(fields[1..]);
      ValuesGet(fields[1..], key);
    }
  }

  /** A string is normalized, every other leaf stays. */
  function NormalLeaf(leaf: Option<Json>): Option<Json> {
    if leaf.Some? && leaf.value.JStr? then Some(JStr(NormalizeText(leaf.value.s))) else leaf
  }

  lemma ObjectNormalized(fields: seq<Member>, key: string)
    requires DistinctKeys(fields)
    ensures NormalizeContent(JObj(fields)).JObj?
    ensures var was := Get(fields, key);
            Get(NormalizeContent(JObj(fields)).fields, key) == if was.Some? then Some(NormalizeContent(was.value)) else None
  {
    assert NormalizeContent(JObj(fields)) == JObj(SortByKey(NormalizeValues(fields)));
    SortedGet(NormalizeValues(fields), key);
    ValuesGet(fields, key);
  }

  /** Normalizing content normalizes the strings in it, at whatever depth, and leaves every other leaf where and what it was. */
  lemma {:induction false} ContentNormalized(content: Json, path: seq<Step>)
    requires Unambiguous(content)
    ensures LeafAt(NormalizeContent(content), path) == NormalLeaf(LeafAt(content, path))
    decreases |path|
  {
    if path != [] {
      LeafBelow(content, path);
      LeafBelow(NormalizeContent(content), path);
      if content.JArr? && path[0].Index? && path[0].i < |content.items| {
        ContentNormalized(content.items[path[0].i], path[1..]);
      } else if content.JObj? && path[0].Field? {
        ObjectNormalized(content.fields, path[0].key);
        if Get(content.fields, path[0].key).Some? {
          GetUnambiguous(content.fields, path[0].key);
          ContentNormalized(Get(content.fields, path[0].key).value, path[1..]);
        }
      }
    }
  }

  // ---------- Which payloads are stored ----------

  lemma {:induction false} SomeStored(messages: seq<Json>, repr: Json -> string)
    ensures NormalizeItems(messages, repr) != [] <==> SomeRole(messages, repr)
  {
    if messages != [] {
      var n := |messages| - 1;
      SomeStored(messages[..n], repr);
      SomeRoleLast(messages, n, repr);
      NormalizeLast(messages, repr);
      NormalizeOne(messages[n], repr);
      MessageStored(messages[n], repr);
    }
  }

  /** `value` is the list `messages`, or a text that holds it. */
  predicate IsList(value: Json, messages: seq<Json>) {
    value == JArr(messages) || (value.JStr? && value.s != "" && Loads(value.s) == Some(JArr(messages)))
  }

  lemma NormalizedList(value: Json, repr: Json -> string)
    ensures forall messages :: IsList(value, messages) ==> NormalizeMessages(value, repr) == NormalizeItems(messages, repr)
    ensures (forall messages :: !IsList(value, messages)) ==> NormalizeMessages(value, repr) == []
  {
    var loaded := if value.JArr? then value else LoadsJson(value);
    assert loaded.JArr? ==> IsList(value, loaded.items);
  }

  /** The prompt that is stored: the desensitized one, or the original when there is none. */
  predicate IsPrompt(p: Payload, prompt: Json) {
    (prompt == p.promptDesensitized && prompt != JNull) || (p.promptDesensitized == JNull && prompt == p.promptOriginal)
  }

  /** The prompt is a list in which some message has a role. */
  ghost predicate Asks(p: Payload, repr: Json -> string) {
    exists prompt, messages :: IsPrompt(p, prompt) && IsList(prompt, messages) && SomeRole(messages, repr)
  }

  lemma AsksExact(p: Payload, prompt: Json, repr: Json -> string)
    requires IsPrompt(p, prompt)
    ensures NormalizeMessages(prompt, repr) != [] <==> Asks(p, repr)
  {
    NormalizedList(prompt, repr);
    if messages :| IsList(prompt, messages) {
      SomeStored(messages, repr);
    }
  }

  /** The response says something. */
  ghost predicate Answers(response: Json, repr: Json -> string) {
    exists r :: r != "" && Says(response, r, repr)
  }

  lemma AnswersExact(response: Json, repr: Json -> string)
    ensures ExtractAssistantResponse(response, repr) != "" <==> Answers(response, repr)
  {
    var reply := ExtractAssistantResponse(response, repr);
    if reply != "" {
      ReplyExact(response, reply, repr);
    }
    if r :| r != "" && Says(response, r, repr) {
      ReplyExact(response, r, repr);
    }
  }

  lemma StoredWhen(p: Payload, prompt: Json, repr: Json -> string)
    requires prompt == if p.promptDesensitized != JNull then p.promptDesensitized else p.promptOriginal
    ensures TrajectoryOf(p, repr).Some? <==>
              && p.capability == "chat" && p.actionTaken in {"passed", "desensitized"} && !p.isBlocked
              && NormalizeMessages(prompt, repr) != [] && ExtractAssistantResponse(p.response, repr) != ""
  {
  }

  /**
  A payload becomes a conversation if and only if it is a chat that was passed on or desensitized and not
  blocked, some message of its prompt has a role, and its response says something.
  */
  lemma StoredExactly(p: Payload, repr: Json -> string)
    ensures TrajectoryOf(p, repr).Some? <==>
              && p.capability == "chat" && p.actionTaken in {"passed", "desensitized"} && !p.isBlocked
              && Asks(p, repr) && Answers(p.response, repr)
  {
    var prompt := if p.promptDesensitized != JNull then p.promptDesensitized else p.promptOriginal;
    AsksExact(p, prompt, repr);
    AnswersExact(p.response, repr);
    StoredWhen(p, prompt, repr);
  }

  lemma RoleStays(message: Json, mask: string -> string, repr: Json -> string)
    ensures HasRole(DesensitizeMessage(message, mask), repr) <==> HasRole(message, repr)
  {
    if message.JObj? && ClientRole(Get(message.fields, "role")) {
      var content := Get(message.fields, "content");
      GetSet(message.fields, "content", DesensitizeContent(if content.Some? then content.value else JNull, mask), "role");
    }
  }

  lemma RolesStay(messages: seq<Json>, rules: Rules, repr: Json -> string)
    ensures SomeRole(DesensitizeMessages(messages, rules), repr) <==> SomeRole(messages, repr)
  {
    if rules.Rules? {
      var masked := DesensitizeMessages(messages, rules);
      forall i | 0 <= i < |messages|
        ensures HasRole(masked[i], repr) <==> HasRole(messages[i], repr)
      {
        RoleStays(messages[i], rules.mask, repr);
      }
    }
  }

  /** A turn of a chat is stored if and only if some message that was sent has a role, and the response says something. */
  lemma TurnStored(turn: Turn, rules: Rules, repr: Json -> string)
    ensures StoredTurn(turn, rules, repr).Some? <==> SomeRole(turn.sent, repr) && Answers(turn.response, repr)
  {
    var masked := DesensitizeMessages(turn.sent, rules);
    RolesStay(turn.sent, rules, repr);
    SomeStored(masked, repr);
    AnswersExact(turn.response, repr);
    StoredWhen(TurnPayload(turn, rules), JArr(masked), repr);
  }

  /** And then its trajectory ends with what the response says. */
  lemma StoredReply(p: Payload, r: string, repr: Json -> string)
    requires TrajectoryOf(p, repr).Some? && r != "" && Says(p.response, r, repr)
    ensures var t := TrajectoryOf(p, repr).value;
            |t| > 1 && t[|t| - 1] == JObj([Member("role", JStr("assistant")), Member("content", JStr(r))])
  {
    ReplyExact(p.response, r, repr);
  }
}
