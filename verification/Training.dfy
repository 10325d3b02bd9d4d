/**
How an archived exchange becomes a stored conversation: normalizing the prompt messages, extracting the
assistant's reply, and why successive turns of one chat are stored as proper prefixes of each other.
`repr` stands for Python's `str` on lists and dictionaries.
*/
module Training {
  import opened Options
  import opened Json
  import opened Text
  import opened Relay
  import opened Coverage

  // ---------- Normalizing ----------

  function NormalizeText(s: string): string {
    Strip(ReplaceCr(ReplaceCrLf(s)))
  }

  lemma NormalizeTextIdempotent(s: string)
    ensures NormalizeText(NormalizeText(s)) == NormalizeText(s)
  {
    var t := NormalizeText(s);
    NoCrLeft(ReplaceCrLf(s));
    if '\r' in t { StripWithin(ReplaceCr(ReplaceCrLf(s)), '\r'); }
    ReplaceCrLfFixed(t);
    ReplaceCrFixed(t);
    StripIdempotent(ReplaceCr(ReplaceCrLf(s)));
  }

  function InsertByKey(m: Member, fields: seq<Member>): (r: seq<Member>)
    ensures multiset(r) == multiset(fields) + multiset{m}
  {
    if fields == [] || !Before(fields[0].key, m.key) then [m] + fields
    else
      assert fields == [fields[0]] + fields[1..];
      [fields[0]] + InsertByKey(m, fields[1..])
  }

  /** The members in key order, as `sorted(content)` visits them. */
  function SortByKey(fields: seq<Member>): (r: seq<Member>)
    ensures multiset(r) == multiset(fields)
  {
    if fields == [] then []
    else
      assert fields == [fields[0]] + fields[1..];
      InsertByKey(fields[0], SortByKey(fields[1..]))
  }

  function NormalizeContent(content: Json): Json
    decreases content
  {
    match content
    case JStr(s) => JStr(NormalizeText(s))
    case JArr(items) => JArr(seq(|items|, i requires 0 <= i < |items| => NormalizeContent(items[i])))
    case JObj(fields) =>
      JObj(SortByKey(seq(|fields|, i requires 0 <= i < |fields| => Member(fields[i].key, NormalizeContent(fields[i].value)))))
    case _ => content
  }

  /** `str(value)`. */
  function PyStr(j: Json, repr: Json -> string): string {
    match j
    case JStr(s) => s
    case JNull => "None"
    case JBool(b) => if b then "True" else "False"
    case JInt(n) => IntText(n)
    case _ => repr(j)
  }

  function GetOr(fields: seq<Member>, key: string, default: Json): Json {
    var r := Get(fields, key);
    if r.Some? then r.value else default
  }

  function RoleOf(role: Option<Json>, repr: Json -> string): string {
    Strip(PyStr(if role.Some? then role.value else JStr(""), repr))
  }

  function StoredMessage(role: string, content: Json): Json {
    JObj([Member("role", JStr(role)), Member("content", content)])
  }

  /** What one prompt message contributes: nothing unless it is an object with a role. */
  function NormalizeMessage(message: Json, repr: Json -> string): seq<Json> {
    if !message.JObj? then []
    else WithRole(RoleOf(Get(message.fields, "role"), repr), NormalizeContent(GetOr(message.fields, "content", JNull)))
  }

  function WithRole(role: string, content: Json): seq<Json> {
    if role == "" then [] else [StoredMessage(role, content)]
  }

  /** What a loop over the items collects. */
  function Collect(items: seq<Json>, f: Json -> seq<Json>): seq<Json> {
    if items == [] then [] else Collect(items[..|items| - 1], f) + f(items[|items| - 1])
  }

  lemma {:induction false} CollectConcat(a: seq<Json>, b: seq<Json>, f: Json -> seq<Json>)
    ensures Collect(a + b, f) == Collect(a, f) + Collect(b, f)
  {
    if b == [] {
      assert a + b == a;
    } else {
      var n := |b| - 1;
      assert (a + b)[..|a + b| - 1] == a + b[..n];
      CollectConcat(a, b[..n], f);
    }
  }

  lemma CollectOne(m: Json, f: Json -> seq<Json>)
    ensures Collect([m], f) == f(m)
  {
    assert [m][..0] == [] && Collect([m][..0], f) == [];
  }

  function Normalizer(repr: Json -> string): Json -> seq<Json> {
    message => NormalizeMessage(message, repr)
  }

  function NormalizeItems(messages: seq<Json>, repr: Json -> string): seq<Json> {
    Collect(messages, Normalizer(repr))
  }

  lemma NormalizeNext(messages: seq<Json>, k: nat, repr: Json -> string)
    requires k < |messages|
    ensures NormalizeItems(messages[..k + 1], repr) == NormalizeItems(messages[..k], repr) + NormalizeMessage(messages[k], repr)
  {
    assert messages[..k + 1] == messages[..k] + [messages[k]];
    CollectConcat(messages[..k], [messages[k]], Normalizer(repr));
    CollectOne(messages[k], Normalizer(repr));
  }

  lemma NormalizeLast(messages: seq<Json>, repr: Json -> string)
    requires messages != []
    ensures NormalizeItems(messages, repr)
            == NormalizeItems(messages[..|messages| - 1], repr) + NormalizeMessage(messages[|messages| - 1], repr)
  {
  }

  lemma NormalizeOne(message: Json, repr: Json -> string)
    ensures NormalizeItems([message], repr) == NormalizeMessage(message, repr)
  {
    CollectOne(message, Normalizer(repr));
  }

  /** `_loads_json`: a text that does not parse stays as it is. */
  function LoadsJson(value: Json): Json {
    match value
    case JStr(s) =>
      if s == "" then value
      else
        var r := Loads(s);
        if r.Some? then r.value else value
    case _ => value
  }

  function NormalizeMessages(value: Json, repr: Json -> string): seq<Json> {
    var messages := if value.JArr? then value else LoadsJson(value);
    if messages.JArr? then NormalizeItems(messages.items, repr) else []
  }

  /** `_normalize_messages` with its loop. */
  method NormalizeMessagesLoop(value: Json, repr: Json -> string) returns (normalized: seq<Json>)
    ensures normalized == NormalizeMessages(value, repr)
  {
    normalized := [];
    var messages := if value.JArr? then value else LoadsJson(value);
    if !messages.JArr? {
      return;
    }
    for k := 0 to |messages.items|
      invariant normalized == NormalizeItems(messages.items[..k], repr)
    {
      var message := messages.items[k];
      NormalizeNext(messages.items, k, repr);
      if !message.JObj? {
        continue;
      }
      var role := RoleOf(Get(message.fields, "role"), repr);
      var content := NormalizeContent(GetOr(message.fields, "content", JNull));
      if role != "" {
        normalized := normalized + [StoredMessage(role, content)];
      }
    }
    assert messages.items[..|messages.items|] == messages.items;
  }

  lemma NormalizeConcat(a: seq<Json>, b: seq<Json>, repr: Json -> string)
    ensures NormalizeItems(a + b, repr) == NormalizeItems(a, repr) + NormalizeItems(b, repr)
  {
    CollectConcat(a, b, Normalizer(repr));
  }

  // ---------- The reply ----------

  predicate Truthy(j: Json) {
    match j
    case JNull => false
    case JBool(b) => b
    case JInt(n) => n != 0
    case JStr(s) => s != ""
    case JArr(items) => items != []
    case JObj(fields) => fields != []
  }

  /** `str(value or "")`. */
  function TextOf(j: Json, repr: Json -> string): string {
    if Truthy(j) then PyStr(j, repr) else ""
  }

  function ExtractAssistantResponse(response: Json, repr: Json -> string): string {
    var body := LoadsJson(response);
    if !body.JObj? then ""
    else ReplyFrom(GetOr(body.fields, "truncated", JNull), GetOr(body.fields, "message_content", JNull),
                   GetOr(body.fields, "content", JNull), repr)
  }

  function ReplyFrom(truncated: Json, messageContent: Json, content: Json, repr: Json -> string): string {
    if Truthy(truncated) then ""
    else if Truthy(messageContent) then NormalizeText(TextOf(messageContent, repr))
    else FirstChoice(LoadsJson(content), repr)
  }

  function FirstChoice(content: Json, repr: Json -> string): string {
    if !content.JObj? then ""
    else
      var choices := GetOr(content.fields, "choices", JNull);
      if !choices.JArr? || choices.items == [] || !choices.items[0].JObj? then ""
      else
        var message := GetOr(choices.items[0].fields, "message", JNull);
        if !message.JObj? then ""
        else NormalizeText(TextOf(GetOr(message.fields, "content", JNull), repr))
  }

  // ---------- A stored conversation ----------

  datatype Payload = Payload(
    capability: string,
    actionTaken: string,
    isBlocked: bool,
    promptOriginal: Json,
    promptDesensitized: Json,
    response: Json)

  predicate IsTrainingCandidate(p: Payload) {
    p.capability == "chat" && (p.actionTaken == "passed" || p.actionTaken == "desensitized") && !p.isBlocked
  }

  /** The trajectory `_conversation_from_payload` stores, if it stores one. */
  function TrajectoryOf(p: Payload, repr: Json -> string): Option<seq<Json>> {
    if !IsTrainingCandidate(p) then None
    else
      var messages := NormalizeMessages(if p.promptDesensitized != JNull then p.promptDesensitized else p.promptOriginal, repr);
      var reply := ExtractAssistantResponse(p.response, repr);
      if messages == [] || reply == "" then None
      else Some(messages + [StoredMessage("assistant", JStr(reply))])
  }

  /** One request of a chat as the relay archives it: the messages sent, and the archived response. */
  datatype Turn = Turn(sent: seq<Json>, response: Json)

  function TurnPayload(turn: Turn, rules: Rules): Payload {
    var masked := DesensitizeMessages(turn.sent, rules);
    Payload("chat", if masked != turn.sent then "desensitized" else "passed", false, JArr(turn.sent), JArr(masked), turn.response)
  }

  function StoredTurn(turn: Turn, rules: Rules, repr: Json -> string): Option<seq<Json>> {
    TrajectoryOf(TurnPayload(turn, rules), repr)
  }

  // ---------- Successive turns nest ----------

  /** `m` is the client's copy of an assistant reply: the text that was stored, up to normalization. */
  predicate Echoes(m: Json, reply: string) {
    && m.JObj?
    && Get(m.fields, "role") == Some(JStr("assistant"))
    && (var content := Get(m.fields, "content");
        content.Some? && content.value.JStr? && NormalizeText(content.value.s) == reply)
  }

  /** Turn `b` sends what turn `a` sent, the reply to `a`, and perhaps more. */
  predicate Continues(a: Turn, b: Turn, repr: Json -> string) {
    && |b.sent| > |a.sent|
    && b.sent[..|a.sent|] == a.sent
    && Echoes(b.sent[|a.sent|], ExtractAssistantResponse(a.response, repr))
  }

  lemma NormalizeMessageWith(m: Json, role: string, content: Json, repr: Json -> string)
    requires m.JObj? && Get(m.fields, "role") == Some(JStr(role)) && Get(m.fields, "content") == Some(content)
    requires Strip(role) == role && role != ""
    ensures NormalizeMessage(m, repr) == [StoredMessage(role, NormalizeContent(content))]
  {
    RoleOfText(role, repr);
  }

  lemma RoleOfText(role: string, repr: Json -> string)
    ensures RoleOf(Some(JStr(role)), repr) == Strip(role)
  {
  }

  /** An echoed reply is stored exactly as the reply itself was. */
  lemma EchoIsStoredReply(m: Json, reply: string, rules: Rules, repr: Json -> string)
    requires Echoes(m, reply)
    ensures NormalizeItems(DesensitizeMessages([m], rules), repr) == [StoredMessage("assistant", JStr(reply))]
  {
    EchoUntouched(m, reply, rules);
    var role, text := Get(m.fields, "role").value.s, Get(m.fields, "content").value.s;
    AssistantIsPlain(role);
    TextNormalized(m, role, text, reply, repr);
  }

  lemma EchoUntouched(m: Json, reply: string, rules: Rules)
    requires Echoes(m, reply)
    ensures DesensitizeMessages([m], rules) == [m]
  {
    if rules.Rules? {
      OthersUntouched(m, rules.mask);
    }
  }

  /** A role that stripping leaves as it is. */
  predicate Plain(role: string) {
    role != "" && !IsSpace(role[0]) && !IsSpace(role[|role| - 1])
  }

  lemma AssistantIsPlain(role: string)
    requires role == "assistant"
    ensures Plain(role)
  {
    assert |role| == 9 && role[0] == 'a' && role[8] == 't';
  }

  lemma ContentOfText(text: string, reply: string)
    requires NormalizeText(text) == reply
    ensures NormalizeContent(JStr(text)) == JStr(reply)
  {
  }

  lemma TextNormalized(m: Json, role: string, text: string, reply: string, repr: Json -> string)
    requires m.JObj? && Get(m.fields, "role") == Some(JStr(role)) && Get(m.fields, "content") == Some(JStr(text))
    requires Plain(role) && NormalizeText(text) == reply
    ensures NormalizeItems([m], repr) == [StoredMessage(role, JStr(reply))]
  {
    StripFixed(role);
    NormalizeMessageWith(m, role, JStr(text), repr);
    ContentOfText(text, reply);
    NormalizeOne(m, repr);
  }

  /** What is stored for a turn, when something is. */
  lemma StoredTurnIs(a: Turn, rules: Rules, repr: Json -> string)
    requires StoredTurn(a, rules, repr).Some?
    ensures StoredTurn(a, rules, repr).value
            == NormalizeItems(DesensitizeMessages(a.sent, rules), repr)
               + [StoredMessage("assistant", JStr(ExtractAssistantResponse(a.response, repr)))]
    ensures ExtractAssistantResponse(a.response, repr) != "" && NormalizeItems(DesensitizeMessages(a.sent, rules), repr) != []
  {
  }

  /** What a continuing turn sends is stored as what the turn before sent, its reply, and more. */
  lemma StoredContinuation(a: seq<Json>, b: seq<Json>, reply: string, rules: Rules, repr: Json -> string)
    requires |a| < |b| && b[..|a|] == a && Echoes(b[|a|], reply)
    ensures NormalizeItems(DesensitizeMessages(b, rules), repr)
            == NormalizeItems(DesensitizeMessages(a, rules), repr) + [StoredMessage("assistant", JStr(reply))]
               + NormalizeItems(DesensitizeMessages(b[|a| + 1..], rules), repr)
  {
    SplitAfter(a, b);
    StoredWithEcho(a, b[|a|], b[|a| + 1..], reply, rules, repr);
  }

  lemma StoredWithEcho(sent: seq<Json>, echo: Json, rest: seq<Json>, reply: string, rules: Rules, repr: Json -> string)
    requires Echoes(echo, reply)
    ensures NormalizeItems(DesensitizeMessages(sent + [echo] + rest, rules), repr)
            == NormalizeItems(DesensitizeMessages(sent, rules), repr) + [StoredMessage("assistant", JStr(reply))]
               + NormalizeItems(DesensitizeMessages(rest, rules), repr)
  {
    NormalizedParts(sent, [echo], rest, rules, repr);
    EchoIsStoredReply(echo, reply, rules, repr);
  }

  /** Under fixed rules, the trajectory of a turn is a proper prefix of that of any turn that continues it. */
  lemma TurnsNest(a: Turn, b: Turn, rules: Rules, repr: Json -> string)
    requires Continues(a, b, repr) && StoredTurn(a, rules, repr).Some? && StoredTurn(b, rules, repr).Some?
    ensures IsPrefixTrajectory(StoredTurn(a, rules, repr).value, StoredTurn(b, rules, repr).value)
  {
    StoredTurnIs(a, rules, repr);
    StoredTurnIs(b, rules, repr);
    StoredContinuation(a.sent, b.sent, ExtractAssistantResponse(a.response, repr), rules, repr);
    LongerByMore(NormalizeItems(DesensitizeMessages(a.sent, rules), repr),
                 [StoredMessage("assistant", JStr(ExtractAssistantResponse(a.response, repr)))],
                 NormalizeItems(DesensitizeMessages(b.sent[|a.sent| + 1..], rules), repr),
                 [StoredMessage("assistant", JStr(ExtractAssistantResponse(b.response, repr)))]);
  }

  lemma SplitAfter(a: seq<Json>, b: seq<Json>)
    requires |a| < |b| && b[..|a|] == a
    ensures b == a + [b[|a|]] + b[|a| + 1..]
  {
  }

  lemma LongerByMore(x: seq<Json>, e: seq<Json>, y: seq<Json>, z: seq<Json>)
    requires e != [] && z != []
    ensures IsPrefixTrajectory(x + e, x + e + y + z)
  {
  }

  lemma NormalizedParts(a: seq<Json>, b: seq<Json>, c: seq<Json>, rules: Rules, repr: Json -> string)
    ensures NormalizeItems(DesensitizeMessages(a + b + c, rules), repr)
            == NormalizeItems(DesensitizeMessages(a, rules), repr) + NormalizeItems(DesensitizeMessages(b, rules), repr)
               + NormalizeItems(DesensitizeMessages(c, rules), repr)
  {
    var da, db, dc := DesensitizeMessages(a, rules), DesensitizeMessages(b, rules), DesensitizeMessages(c, rules);
    DesensitizeConcat(a + b, c, rules);
    DesensitizeConcat(a, b, rules);
    NormalizeConcat(da + db, dc, repr);
    NormalizeConcat(da, db, repr);
  }

  /** A chat whose every turn continues the one before, and the trajectories stored for its turns. */
  ghost predicate Chat(turns: seq<Turn>, stored: seq<seq<Json>>, rules: Rules, repr: Json -> string) {
    && |stored| == |turns|
    && (forall k :: 0 <= k < |turns| ==> StoredTurn(turns[k], rules, repr) == Some(stored[k]))
    && (forall k :: 0 < k < |turns| ==> Continues(turns[k - 1], turns[k], repr))
  }

  lemma ConsecutiveTurnsNest(turns: seq<Turn>, stored: seq<seq<Json>>, rules: Rules, repr: Json -> string, m: nat)
    requires Chat(turns, stored, rules, repr) && 0 < m < |turns|
    ensures IsPrefixTrajectory(stored[m - 1], stored[m])
  {
    var a, b := turns[m - 1], turns[m];
    assert StoredTurn(a, rules, repr) == Some(stored[m - 1]) && StoredTurn(b, rules, repr) == Some(stored[m]);
    TurnsNest(a, b, rules, repr);
  }

  lemma {:induction false} NestedTransitive(stored: seq<seq<Json>>, k: nat, m: nat)
    requires forall i :: 0 < i < |stored| ==> IsPrefixTrajectory(stored[i - 1], stored[i])
    requires k < m < |stored|
    ensures IsPrefixTrajectory(stored[k], stored[m])
  {
    if k < m - 1 {
      NestedTransitive(stored, k, m - 1);
      PrefixTransitive(stored[k], stored[m - 1], stored[m]);
    }
  }

  /** The stored trajectories of a chat are nested, any earlier one in any later one. */
  lemma ChatNests(turns: seq<Turn>, stored: seq<seq<Json>>, rules: Rules, repr: Json -> string, k: nat, m: nat)
    requires Chat(turns, stored, rules, repr) && k < m < |turns|
    ensures IsPrefixTrajectory(stored[k], stored[m])
  {
    forall i | 0 < i < |stored|
      ensures IsPrefixTrajectory(stored[i - 1], stored[i])
    {
      ConsecutiveTurnsNest(turns, stored, rules, repr, i);
    }
    NestedTransitive(stored, k, m);
  }

  lemma PrefixTransitive(a: seq<Json>, b: seq<Json>, c: seq<Json>)
    requires IsPrefixTrajectory(a, b) && IsPrefixTrajectory(b, c)
    ensures IsPrefixTrajectory(a, c)
  {
    assert c[..|a|] == c[..|b|][..|a|];
  }

  // ---------- What the archive hands over ----------

  lemma GetOfTwo(a: Member, b: Member, key: string)
    ensures Get([a, b], key) == if a.key == key then Some(a.value) else if b.key == key then Some(b.value) else None
  {
    assert [a, b][1..] == [b] && [b][1..] == [];
  }

  lemma FirstChoiceIs(body: seq<Member>, choices: seq<Json>, message: seq<Member>, r: string, repr: Json -> string)
    requires Get(body, "choices") == Some(JArr(choices))
    requires choices != [] && choices[0].JObj? && Get(choices[0].fields, "message") == Some(JObj(message))
    requires Get(message, "content") == Some(JStr(r))
    ensures FirstChoice(JObj(body), repr) == NormalizeText(r)
  {
    assert TextOf(JStr(r), repr) == r;
  }

  /** The two members the archive writes for a reply that was not streamed. */
  function ArchivedBody(mediaType: string, text: string): Json {
    JObj([Member("media_type", JStr(mediaType)), Member("content", JStr(text))])
  }

  lemma ArchivedBodyReply(mediaType: string, text: string, repr: Json -> string)
    ensures ExtractAssistantResponse(ArchivedBody(mediaType, text), repr) == FirstChoice(LoadsJson(JStr(text)), repr)
  {
    var a, b := Member("media_type", JStr(mediaType)), Member("content", JStr(text));
    GetOfTwo(a, b, "truncated");
    GetOfTwo(a, b, "message_content");
    GetOfTwo(a, b, "content");
    assert ReplyFrom(JNull, JNull, JStr(text), repr) == FirstChoice(LoadsJson(JStr(text)), repr);
  }

  /** A non-streamed reply `r` is archived as the response text, whose first choice holds it. */
  lemma NonStreamReply(mediaType: string, text: string, body: seq<Member>, choices: seq<Json>, message: seq<Member>, r: string,
                       repr: Json -> string)
    requires text != "" && Loads(text) == Some(JObj(body)) && Get(body, "choices") == Some(JArr(choices))
    requires choices != [] && choices[0].JObj? && Get(choices[0].fields, "message") == Some(JObj(message))
    requires Get(message, "content") == Some(JStr(r))
    ensures ExtractAssistantResponse(ArchivedBody(mediaType, text), repr) == NormalizeText(r)
  {
    ArchivedBodyReply(mediaType, text, repr);
    assert LoadsJson(JStr(text)) == JObj(body);
    FirstChoiceIs(body, choices, message, r, repr);
  }

  // ---------- The stored text ----------

  function SerializeTrajectory(trajectory: seq<Json>): string {
    Dumps(JArr(trajectory), Compact)
  }

  /** `_parse_trajectory`: no text, a text that does not parse, and a text that is not a list all give []. */
  function ParseTrajectory(value: string): seq<Json> {
    if value == "" then []
    else
      var parsed := Loads(value);
      if parsed.Some? && parsed.value.JArr? then parsed.value.items else []
  }

  lemma ParseSerialized(trajectory: seq<Json>)
    requires forall i :: 0 <= i < |trajectory| ==> Unambiguous(trajectory[i])
    ensures ParseTrajectory(SerializeTrajectory(trajectory)) == trajectory
  {
    LoadsDumps(JArr(trajectory), Compact);
  }

  // ---------- Normalizing again changes nothing ----------

  predicate InKeyOrder(fields: seq<Member>) {
    forall i :: 0 < i < |fields| ==> !Before(fields[i].key, fields[i - 1].key)
  }

  lemma {:induction false} InsertKeepsOrder(m: Member, fields: seq<Member>)
    requires InKeyOrder(fields)
    ensures InKeyOrder(InsertByKey(m, fields))
  {
    if fields != [] && Before(fields[0].key, m.key) {
      BeforeAsymmetric(fields[0].key, m.key);
      InsertKeepsOrder(m, fields[1..]);
    }
  }

  lemma {:induction false} SortOrders(fields: seq<Member>)
    ensures InKeyOrder(SortByKey(fields))
  {
    if fields != [] {
      SortOrders(fields[1..]);
      InsertKeepsOrder(fields[0], SortByKey(fields[1..]));
    }
  }

  lemma {:induction false} SortFixed(fields: seq<Member>)
    requires InKeyOrder(fields)
    ensures SortByKey(fields) == fields
  {
    if fields != [] {
      SortFixed(fields[1..]);
      assert |fields| > 1 ==> !Before(fields[1].key, fields[0].key);
      assert fields == [fields[0]] + fields[1..];
    }
  }

  function NormalizeValues(fields: seq<Member>): seq<Member> {
    seq(|fields|, i requires 0 <= i < |fields| => Member(fields[i].key, NormalizeContent(fields[i].value)))
  }

  predicate Fixed(m: Member) {
    NormalizeContent(m.value) == m.value
  }

  lemma SortedFixed(values: seq<Member>)
    requires forall k :: 0 <= k < |values| ==> Fixed(values[k])
    ensures NormalizeContent(JObj(SortByKey(values))) == JObj(SortByKey(values))
  {
    var sorted := SortByKey(values);
    forall i | 0 <= i < |sorted|
      ensures Fixed(sorted[i])
    {
      assert sorted[i] in multiset(sorted);
      assert sorted[i] in values;
    }
    ValuesFixed(sorted);
    SortOrders(values);
    SortFixed(sorted);
  }

  lemma ValuesFixed(fields: seq<Member>)
    requires forall i :: 0 <= i < |fields| ==> Fixed(fields[i])
    ensures NormalizeValues(fields) == fields
  {
    forall i | 0 <= i < |fields|
      ensures NormalizeValues(fields)[i] == fields[i]
    {
      assert Fixed(fields[i]);
    }
  }

  lemma {:induction false} NormalizeContentIdempotent(content: Json)
    ensures NormalizeContent(NormalizeContent(content)) == NormalizeContent(content)
  {
    match content
    case JStr(s) => NormalizeTextIdempotent(s);
    case JArr(items) =>
      forall i | 0 <= i < |items|
        ensures NormalizeContent(NormalizeContent(items[i])) == NormalizeContent(items[i])
      {
        NormalizeContentIdempotent(items[i]);
      }
    case JObj(fields) =>
      var values := NormalizeValues(fields);
      assert NormalizeContent(content) == JObj(SortByKey(values));
      forall k | 0 <= k < |values|
        ensures Fixed(values[k])
      {
        NormalizeContentIdempotent(fields[k].value);
      }
      SortedFixed(values);
    case _ =>
  }

  lemma StoredMessageFixed(role: string, content: Json, repr: Json -> string)
    requires role != "" && Strip(role) == role && NormalizeContent(content) == content
    ensures NormalizeMessage(StoredMessage(role, content), repr) == [StoredMessage(role, content)]
  {
    var a, b := Member("role", JStr(role)), Member("content", content);
    GetOfTwo(a, b, "role");
    GetOfTwo(a, b, "content");
    NormalizeMessageWith(StoredMessage(role, content), role, content, repr);
  }

  lemma WithRoleIdempotent(role: string, content: Json, repr: Json -> string)
    requires Strip(role) == role && NormalizeContent(content) == content
    ensures NormalizeItems(WithRole(role, content), repr) == WithRole(role, content)
  {
    if role != "" {
      StoredMessageFixed(role, content, repr);
      NormalizeOne(StoredMessage(role, content), repr);
    }
  }

  lemma NormalizeMessageIdempotent(m: Json, repr: Json -> string)
    ensures NormalizeItems(NormalizeMessage(m, repr), repr) == NormalizeMessage(m, repr)
  {
    if m.JObj? {
      var role, content := Get(m.fields, "role"), GetOr(m.fields, "content", JNull);
      NormalizeContentIdempotent(content);
      StripIdempotent(PyStr(if role.Some? then role.value else JStr(""), repr));
      WithRoleIdempotent(RoleOf(role, repr), NormalizeContent(content), repr);
    }
  }

  /** Stored messages are normal: a client that sends them back has them stored unchanged. */
  lemma {:induction false} NormalizeItemsIdempotent(messages: seq<Json>, repr: Json -> string)
    ensures NormalizeItems(NormalizeItems(messages, repr), repr) == NormalizeItems(messages, repr)
  {
    if messages != [] {
      var n := |messages| - 1;
      NormalizeItemsIdempotent(messages[..n], repr);
      NormalizeMessageIdempotent(messages[n], repr);
      NormalizeLast(messages, repr);
      NormalizeConcat(NormalizeItems(messages[..n], repr), NormalizeMessage(messages[n], repr), repr);
    }
  }

  // ---------- The stored text reads back ----------

  lemma {:induction false} InsertKeepsDistinct(m: Member, fields: seq<Member>)
    requires DistinctKeys(fields) && forall i :: 0 <= i < |fields| ==> fields[i].key != m.key
    ensures DistinctKeys(InsertByKey(m, fields))
  {
    if fields != [] && Before(fields[0].key, m.key) {
      InsertKeepsDistinct(m, fields[1..]);
      var rest := InsertByKey(m, fields[1..]);
      forall i | 0 <= i < |rest|
        ensures rest[i].key != fields[0].key
      {
        assert rest[i] in multiset(rest);
        assert rest[i] == m || rest[i] in fields[1..];
      }
    }
  }

  lemma {:induction false} SortKeepsDistinct(fields: seq<Member>)
    requires DistinctKeys(fields)
    ensures DistinctKeys(SortByKey(fields))
  {
    if fields != [] {
      SortKeepsDistinct(fields[1..]);
      var rest := SortByKey(fields[1..]);
      forall i | 0 <= i < |rest|
        ensures rest[i].key != fields[0].key
      {
        assert rest[i] in multiset(rest);
        assert rest[i] in fields[1..];
      }
      InsertKeepsDistinct(fields[0], rest);
    }
  }

  lemma {:induction false} NormalizeKeepsUnambiguous(content: Json)
    requires Unambiguous(content)
    ensures Unambiguous(NormalizeContent(content))
  {
    match content
    case JArr(items) =>
      forall i | 0 <= i < |items|
        ensures Unambiguous(NormalizeContent(items[i]))
      {
        NormalizeKeepsUnambiguous(items[i]);
      }
    case JObj(fields) =>
      var values := NormalizeValues(fields);
      var sorted := SortByKey(values);
      assert NormalizeContent(content) == JObj(sorted);
      SortKeepsDistinct(values);
      forall i | 0 <= i < |sorted|
        ensures Unambiguous(sorted[i].value)
      {
        assert sorted[i] in multiset(sorted);
        var k :| 0 <= k < |values| && values[k] == sorted[i];
        NormalizeKeepsUnambiguous(fields[k].value);
      }
    case _ =>
  }

  lemma StoredMessageUnambiguous(role: string, content: Json)
    requires Unambiguous(content)
    ensures Unambiguous(StoredMessage(role, content))
  {
    var fields := [Member("role", JStr(role)), Member("content", content)];
    assert "role" != "content";
    assert fields[0].value == JStr(role) && fields[1].value == content;
  }

  predicate AllUnambiguous(messages: seq<Json>) {
    forall i :: 0 <= i < |messages| ==> Unambiguous(messages[i])
  }

  lemma NormalizedMessageUnambiguous(m: Json, repr: Json -> string)
    requires Unambiguous(m)
    ensures AllUnambiguous(NormalizeMessage(m, repr))
  {
    if m.JObj? {
      var content := GetOr(m.fields, "content", JNull);
      if Get(m.fields, "content").Some? { GetUnambiguous(m.fields, "content"); }
      NormalizeKeepsUnambiguous(content);
      WithRoleUnambiguous(RoleOf(Get(m.fields, "role"), repr), NormalizeContent(content));
    }
  }

  lemma WithRoleUnambiguous(role: string, content: Json)
    requires Unambiguous(content)
    ensures AllUnambiguous(WithRole(role, content))
  {
    StoredMessageUnambiguous(role, content);
  }

  lemma UnambiguousConcat(a: seq<Json>, b: seq<Json>)
    requires AllUnambiguous(a) && AllUnambiguous(b)
    ensures AllUnambiguous(a + b)
  {
  }

  lemma {:induction false} NormalizedUnambiguous(messages: seq<Json>, repr: Json -> string)
    requires AllUnambiguous(messages)
    ensures AllUnambiguous(NormalizeItems(messages, repr))
  {
    if messages != [] {
      var n := |messages| - 1;
      NormalizedUnambiguous(messages[..n], repr);
      NormalizedMessageUnambiguous(messages[n], repr);
      NormalizeLast(messages, repr);
      UnambiguousConcat(NormalizeItems(messages[..n], repr), NormalizeMessage(messages[n], repr));
    }
  }

  /** What is stored as text is read back by the coverage job as the very list that was stored. */
  lemma StoredTextReadsBack(messages: seq<Json>, reply: string, repr: Json -> string)
    requires AllUnambiguous(messages)
    ensures var trajectory := NormalizeItems(messages, repr) + [StoredMessage("assistant", JStr(reply))];
            ParseTrajectory(SerializeTrajectory(trajectory)) == trajectory
  {
    NormalizedUnambiguous(messages, repr);
    StoredMessageUnambiguous("assistant", JStr(reply));
    ParseSerialized(NormalizeItems(messages, repr) + [StoredMessage("assistant", JStr(reply))]);
  }

  /** The trajectory of a turn that came in as JSON is read back from its stored text. */
  lemma StoredTurnReadsBack(turn: Turn, rules: Rules, repr: Json -> string)
    requires AllUnambiguous(turn.sent) && StoredTurn(turn, rules, repr).Some?
    ensures var trajectory := StoredTurn(turn, rules, repr).value; ParseTrajectory(SerializeTrajectory(trajectory)) == trajectory
  {
    StoredTurnIs(turn, rules, repr);
    MessagesUnambiguous(turn.sent, rules);
    StoredTextReadsBack(DesensitizeMessages(turn.sent, rules), ExtractAssistantResponse(turn.response, repr), repr);
  }

  // ---------- End to end ----------

  /**
  Where a table holds the turns of a chat: one row per turn, in turn order, under one user and key. The row
  shows what the coverage job parses from the text that was stored.
  */
  ghost predicate StoredAt(t: Table, at: seq<int>, stored: seq<seq<Json>>) {
    && |at| == |stored| && Placed(t, at)
    && forall k :: 0 <= k < |at| ==> t[at[k]].trajectory == ParseTrajectory(SerializeTrajectory(stored[k]))
  }

  /** Ascending positions of one user and key. */
  predicate Placed(t: Table, at: seq<int>) {
    && (forall k :: 0 <= k < |at| ==> 0 <= at[k] < |t|)
    && (forall k, m :: 0 <= k < m < |at| ==> at[k] < at[m] && SameGroup(t[at[k]], t[at[m]]))
  }

  /**
  End to end: a chat's requests come in as JSON, each turn is desensitized, normalized and stored as text;
  once every row is analyzed, every stored turn of the chat but the last is covered.
  */
  lemma EarlierTurnsCovered(h: seq<Table>, n: nat, at: seq<int>, turns: seq<Turn>, stored: seq<seq<Json>>, rules: Rules,
                            repr: Json -> string, k: nat)
    requires Run(h) && n < |h| && forall j :: 0 <= j < |h[n]| ==> h[n][j].analyzed
    requires Chat(turns, stored, rules, repr) && StoredAt(h[n], at, stored) && k < |turns| - 1
    requires forall m :: 0 <= m < |turns| ==> AllUnambiguous(turns[m].sent)
    ensures Covered(h[n][at[k]])
  {
    ReachableInvariant(h, n);
    ChatNests(turns, stored, rules, repr, k, k + 1);
    StoredTurnReadsBack(turns[k], rules, repr);
    StoredTurnReadsBack(turns[k + 1], rules, repr);
    assert InOrder(h[n], at[k], at[k + 1]);
    assert Extends(h[n][at[k + 1]], h[n][at[k]]);
    CoverageIsExact(h, n, at[k]);
  }

  /** The last turn stays uncovered unless a row outside the chat extends it. */
  lemma LastTurnKept(h: seq<Table>, n: nat, at: seq<int>, stored: seq<seq<Json>>)
    requires Run(h) && n < |h| && forall j :: 0 <= j < |h[n]| ==> h[n][j].analyzed
    requires StoredAt(h[n], at, stored) && at != []
    requires forall j :: 0 <= j < |h[n]| && j !in at ==> !Extends(h[n][j], h[n][at[|at| - 1]])
    ensures !Covered(h[n][at[|at| - 1]])
  {
    var last := at[|at| - 1];
    ReachableInvariant(h, n);
    CoverageIsExact(h, n, last);
    LastUnextended(h[n], at);
  }

  lemma LastUnextended(t: Table, at: seq<int>)
    requires WellFormed(t) && Placed(t, at) && at != []
    requires forall j :: 0 <= j < |t| && j !in at ==> !Extends(t[j], t[at[|at| - 1]])
    ensures !Extended(t, at[|at| - 1])
  {
    var last := at[|at| - 1];
    if j :| 0 <= j < |t| && Extends(t[j], t[last]) {
      var m :| 0 <= m < |at| && at[m] == j;
      IdOrder(t, last, j);
    }
  }
}
