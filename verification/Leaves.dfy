/**
Where in a request the texts are that get desensitized and scanned: values are addressed by paths, and what
the recursive passes of Relay.dfy do is stated for each path.
*/
module Leaves {
  import opened Options
  import opened Json
  import opened Text
  import opened Relay

  datatype Step = Index(i: nat) | Field(key: string)

  /** The value at the end of a path, if the path leads somewhere. */
  function At(j: Json, path: seq<Step>): Option<Json>
    decreases path
  {
    if path == [] then Some(j)
    else
      match path[0]
      case Index(i) => if j.JArr? && i < |j.items| then At(j.items[i], path[1..]) else None
      case Field(key) =>
        if j.JObj? && Get(j.fields, key).Some? then At(Get(j.fields, key).value, path[1..]) else None
  }

  /** The string, number or constant at the end of a path. */
  function LeafAt(j: Json, path: seq<Step>): Option<Json> {
    var v := At(j, path);
    if v.Some? && (v.value.JArr? || v.value.JObj?) then None else v
  }

  /** From content to a text in it: the content itself, or a part of the list. */
  predicate ContentPath(path: seq<Step>)
    decreases |path|
  {
    path == [] || (path[0].Index? && PartPath(path[1..]))
  }

  /** From a part to a text in it: the part itself, its `text`, or a text in its own `content`. */
  predicate PartPath(path: seq<Step>)
    decreases |path|
  {
    path == [] || path == [Field("text")] || (path[0] == Field("content") && ContentPath(path[1..]))
  }

  // ---------- Desensitizing ----------

  /** What a leaf becomes: a string is masked where texts are, and nothing else changes. */
  function MaskedLeaf(leaf: Option<Json>, isText: bool, mask: string -> string): Option<Json> {
    if leaf.Some? && leaf.value.JStr? && isText then Some(JStr(mask(leaf.value.s))) else leaf
  }

  lemma LeafBelow(j: Json, path: seq<Step>)
    requires path != []
    ensures path[0].Index? ==>
              LeafAt(j, path) == if j.JArr? && path[0].i < |j.items| then LeafAt(j.items[path[0].i], path[1..]) else None
    ensures path[0].Field? ==>
              LeafAt(j, path)
              == if j.JObj? && Get(j.fields, path[0].key).Some? then LeafAt(Get(j.fields, path[0].key).value, path[1..]) else None
  {
  }

  /** Of content, exactly the strings at content paths are masked; every other leaf is where and what it was. */
  lemma {:induction false} ContentMasked(content: Json, path: seq<Step>, mask: string -> string)
    ensures LeafAt(DesensitizeContent(content, mask), path) == MaskedLeaf(LeafAt(content, path), ContentPath(path), mask)
    decreases |path|, 1
  {
    if path != [] {
      LeafBelow(content, path);
      LeafBelow(DesensitizeContent(content, mask), path);
      if content.JArr? && path[0].Index? && path[0].i < |content.items| {
        PartMasked(content.items[path[0].i], path[1..], mask);
      }
    }
  }

  /** A part's members after desensitizing. */
  lemma PartMembers(fields: seq<Member>, key: string, mask: string -> string)
    ensures DesensitizePart(JObj(fields), mask).JObj?
    ensures var was, now := Get(fields, key), Get(DesensitizePart(JObj(fields), mask).fields, key);
            now == if key == "text" then MaskedLeaf(was, true, mask)
                   else if key == "content" && was.Some? then Some(DesensitizeContent(was.value, mask))
                   else was
  {
    PartFields(fields, mask);
    if key != "text" && key != "content" {
      OtherMember(fields, key, mask);
    }
  }

  lemma OtherMember(fields: seq<Member>, key: string, mask: string -> string)
    requires key != "text" && key != "content"
    ensures DesensitizePart(JObj(fields), mask).JObj?
    ensures Get(DesensitizePart(JObj(fields), mask).fields, key) == Get(fields, key)
  {
    var text, content := Get(fields, "text"), Get(fields, "content");
    if text.Some? && text.value.JStr? {
      GetSet(fields, "text", JStr(mask(text.value.s)), key);
    }
    if content.Some? {
      GetSet(DesensitizeText(fields, mask), "content", DesensitizeContent(content.value, mask), key);
    }
  }

  lemma {:induction false} PartMasked(part: Json, path: seq<Step>, mask: string -> string)
    ensures LeafAt(DesensitizePart(part, mask), path) == MaskedLeaf(LeafAt(part, path), PartPath(path), mask)
    decreases |path|, 0
  {
    if path != [] {
      LeafBelow(part, path);
      LeafBelow(DesensitizePart(part, mask), path);
      if part.JObj? && path[0].Field? {
        PartMembers(part.fields, path[0].key, mask);
        if path[0].key == "content" && Get(part.fields, "content").Some? {
          ContentMasked(Get(part.fields, "content").value, path[1..], mask);
        }
        if path[0].key == "text" && |path| == 1 {
          assert path == [Field("text")];
        }
      }
    }
  }

  /** Of a message of a user, a tool or a function, exactly the strings at content paths of `content` are masked. */
  lemma MessageMasked(message: Json, role: string, path: seq<Step>, mask: string -> string)
    requires message.JObj? && Get(message.fields, "role") == Some(JStr(role)) && role in {"user", "tool", "function"}
    requires Get(message.fields, "content").Some?
    ensures LeafAt(DesensitizeMessage(message, mask), path)
            == MaskedLeaf(LeafAt(message, path), path != [] && path[0] == Field("content") && ContentPath(path[1..]), mask)
  {
    var content := Get(message.fields, "content").value;
    if path != [] {
      LeafBelow(message, path);
      LeafBelow(DesensitizeMessage(message, mask), path);
      if path[0].Field? {
        GetSet(message.fields, "content", DesensitizeContent(content, mask), path[0].key);
        ContentMasked(content, path[1..], mask);
      }
    }
  }

  // ---------- Scanning ----------

  /** A part whose `text` is a string: its `content` is not looked at. */
  predicate HasText(part: Json) {
    part.JObj? && var text := Get(part.fields, "text"); text.Some? && text.value.JStr?
  }

  /** `path` leads from the content to the text `s`, through no part that has a text of its own. */
  predicate ContentShows(content: Json, path: seq<Step>, s: string)
    decreases |path|, 1
  {
    if path == [] then content == JStr(s)
    else path[0].Index? && content.JArr? && path[0].i < |content.items| && PartShows(content.items[path[0].i], path[1..], s)
  }

  predicate PartShows(part: Json, path: seq<Step>, s: string)
    decreases |path|, 0
  {
    if path == [] then part == JStr(s)
    else if path == [Field("text")] then HasText(part) && Get(part.fields, "text") == Some(JStr(s))
    else
      && path[0] == Field("content") && part.JObj? && !HasText(part) && Get(part.fields, "content").Some?
      && ContentShows(Get(part.fields, "content").value, path[1..], s)
  }

  /** Such a path leads to the text, and desensitizing masks what is at its end. */
  lemma {:induction false} ShownIsThere(content: Json, path: seq<Step>, s: string)
    requires ContentShows(content, path, s)
    ensures ContentPath(path) && At(content, path) == Some(JStr(s))
    decreases |path|, 1
  {
    if path != [] {
      PartShownIsThere(content.items[path[0].i], path[1..], s);
    }
  }

  lemma {:induction false} PartShownIsThere(part: Json, path: seq<Step>, s: string)
    requires PartShows(part, path, s)
    ensures PartPath(path) && At(part, path) == Some(JStr(s))
    decreases |path|, 0
  {
    if path != [] && path != [Field("text")] {
      ShownIsThere(Get(part.fields, "content").value, path[1..], s);
    }
  }

  lemma {:induction false} ItemInParts(items: seq<Json>, i: nat)
    requires i < |items|
    ensures forall s :: s in PartsOfItem(items[i]) ==> s in PartsOfItems(items)
  {
    if i > 0 {
      ItemInParts(items[1..], i - 1);
    }
  }

  lemma {:induction false} PartsFromItems(items: seq<Json>, s: string)
    requires s in PartsOfItems(items)
    ensures exists i :: 0 <= i < |items| && s in PartsOfItem(items[i])
  {
    if s !in PartsOfItem(items[0]) {
      PartsFromItems(items[1..], s);
      var i :| 0 <= i < |items[1..]| && s in PartsOfItem(items[1..][i]);
      assert s in PartsOfItem(items[i + 1]);
    }
  }

  /** A text that a path leads to is scanned. */
  lemma {:induction false} ShownIsScanned(content: Json, path: seq<Step>, s: string)
    requires ContentShows(content, path, s)
    ensures s in ContentParts(content)
    decreases |path|, 1
  {
    if path != [] {
      PartShownIsScanned(content.items[path[0].i], path[1..], s);
      ItemInParts(content.items, path[0].i);
    }
  }

  lemma {:induction false} PartShownIsScanned(part: Json, path: seq<Step>, s: string)
    requires PartShows(part, path, s)
    ensures s in PartsOfItem(part)
    decreases |path|, 0
  {
    if path != [] && path != [Field("text")] {
      ShownIsScanned(Get(part.fields, "content").value, path[1..], s);
    }
  }

  /** And nothing else is. */
  lemma {:induction false} ScannedIsShown(content: Json, s: string) returns (path: seq<Step>)
    requires s in ContentParts(content)
    ensures ContentShows(content, path, s)
    decreases content, 1
  {
    path := [];
    if content.JArr? {
      PartsFromItems(content.items, s);
      var i :| 0 <= i < |content.items| && s in PartsOfItem(content.items[i]);
      var rest := PartScannedIsShown(content.items[i], s);
      path := [Index(i)] + rest;
    }
  }

  lemma {:induction false} PartScannedIsShown(part: Json, s: string) returns (path: seq<Step>)
    requires s in PartsOfItem(part)
    ensures PartShows(part, path, s)
    decreases part, 0
  {
    path := [];
    if HasText(part) {
      path := [Field("text")];
    } else if part.JObj? {
      var rest := ScannedIsShown(Get(part.fields, "content").value, s);
      path := [Field("content")] + rest;
      assert path[0] == Field("content") != Field("text") && path[1..] == rest;
    }
  }

  /** The parts of a list are scanned in list order. */
  lemma {:induction false} PartsInOrder(a: seq<Json>, b: seq<Json>)
    ensures PartsOfItems(a + b) == PartsOfItems(a) + PartsOfItems(b)
  {
    if a == [] {
      assert a + b == b;
    } else {
      assert (a + b)[1..] == a[1..] + b;
      PartsInOrder(a[1..], b);
    }
  }

  lemma {:induction false} NonEmptyKeeps(parts: seq<string>, s: string)
    ensures s in NonEmpty(parts) <==> s in parts && s != ""
  {
    if parts != [] {
      NonEmptyKeeps(parts[1..], s);
    }
  }

  /** A text counts as scanned in a message exactly when a client's role, a path in `content` and some character speak for it. */
  ghost predicate ScannedIn(message: Json, s: string) {
    && s != "" && message.JObj?
    && (exists role :: Get(message.fields, "role") == Some(JStr(role)) && role in {"user", "tool", "function"})
    && Get(message.fields, "content").Some?
    && exists path :: ContentShows(Get(message.fields, "content").value, path, s)
  }

  lemma MessageScannedExactly(message: Json, s: string)
    ensures s in MessageParts(message) <==> ScannedIn(message, s)
  {
    if message.JObj? {
      var role, content := Get(message.fields, "role"), Get(message.fields, "content");
      assert ClientRole(role) <==> exists r :: role == Some(JStr(r)) && r in {"user", "tool", "function"};
      if content.Some? {
        NonEmptyKeeps(ContentParts(content.value), s);
        if s in ContentParts(content.value) {
          var path := ScannedIsShown(content.value, s);
        }
        if path :| ContentShows(content.value, path, s) {
          ShownIsScanned(content.value, path, s);
        }
      }
    }
  }

  /** Texts put one below the other. */
  lemma OneBelowTheOther(parts: seq<string>)
    ensures parts == [] ==> Join("\n", parts) == ""
    ensures |parts| == 1 ==> Join("\n", parts) == parts[0]
    ensures |parts| > 1 ==> Join("\n", parts) == parts[0] + ['\n'] + Join("\n", parts[1..])
  {
  }

  lemma NothingScanned(message: Json)
    requires forall t :: !ScannedIn(message, t)
    ensures Wordless(message)
  {
    var parts := MessageParts(message);
    MessageScannedExactly(message, if parts == [] then "" else parts[0]);
  }

  /**
  The text that is scanned comes from the last message that has any: its texts one below the other; messages
  of other roles and empty ones are passed over.
  */
  lemma LatestExactly(messages: seq<Json>, k: nat, s: string)
    requires k < |messages| && ScannedIn(messages[k], s)
    requires forall i, t :: k < i < |messages| ==> !ScannedIn(messages[i], t)
    ensures LatestText(messages) == Join("\n", MessageParts(messages[k])) && s in MessageParts(messages[k])
  {
    MessageScannedExactly(messages[k], s);
    forall i | k < i < |messages|
      ensures Wordless(messages[i])
    {
      NothingScanned(messages[i]);
    }
    LatestIs(messages, k);
  }
}
