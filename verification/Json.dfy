/**
JSON values, the text `json.dumps(..., ensure_ascii=False)` writes for them, and a reader for RFC 8259
texts. Objects keep their members in insertion order, as Python's dictionaries do.
*/
module Json {
  import opened Options
  import opened Text

  datatype Json =
    | JNull
    | JBool(b: bool)
    | JInt(n: int)
    | JStr(s: string)
    | JArr(items: seq<Json>)
    | JObj(fields: seq<Member>)

  datatype Member = Member(key: string, value: Json)

  /** Separators: `separators=(",", ":")`, or the default ones. */
  datatype Style = Compact | Spaced

  // ---------- Dictionaries ----------

  predicate DistinctKeys(fields: seq<Member>) {
    forall i, j :: 0 <= i < j < |fields| ==> fields[i].key != fields[j].key
  }

  /** `d.get(key)`. */
  function Get(fields: seq<Member>, key: string): (r: Option<Json>)
    ensures r.Some? ==> Member(key, r.value) in fields
  {
    if fields == [] then None else if fields[0].key == key then Some(fields[0].value) else Get(fields[1..], key)
  }

  /** `d[key] = value`: in place when the key is present, at the end otherwise. */
  function Set(fields: seq<Member>, key: string, value: Json): (r: seq<Member>)
    ensures |fields| <= |r| <= |fields| + 1
    ensures forall i :: 0 <= i < |fields| ==> r[i].key == fields[i].key
    ensures |r| > |fields| ==> r[|fields|].key == key && forall i :: 0 <= i < |fields| ==> fields[i].key != key
  {
    if fields == [] then [Member(key, value)]
    else if fields[0].key == key then [Member(key, value)] + fields[1..]
    else [fields[0]] + Set(fields[1..], key, value)
  }

  lemma {:induction false} GetSet(fields: seq<Member>, key: string, value: Json, other: string)
    ensures Get(Set(fields, key, value), other) == if other == key then Some(value) else Get(fields, other)
  {
    if fields != [] && fields[0].key != key {
      assert Set(fields, key, value)[1..] == Set(fields[1..], key, value);
      GetSet(fields[1..], key, value, other);
    } else if fields != [] {
      assert Set(fields, key, value)[1..] == fields[1..];
    }
  }

  /** The dictionary a reader builds from the members it meets: a repeated key keeps its last value. */
  function FromMembers(members: seq<Member>): (fields: seq<Member>)
    ensures DistinctKeys(fields)
  {
    if members == [] then []
    else
      var n := |members| - 1;
      SetKeepsDistinct(FromMembers(members[..n]), members[n].key, members[n].value);
      Set(FromMembers(members[..n]), members[n].key, members[n].value)
  }

  lemma SetKeepsDistinct(fields: seq<Member>, key: string, value: Json)
    requires DistinctKeys(fields)
    ensures DistinctKeys(Set(fields, key, value))
  {
    var r := Set(fields, key, value);
    forall i, j | 0 <= i < j < |r|
      ensures r[i].key != r[j].key
    {
      assert r[i].key == fields[i].key;
    }
  }

  lemma {:induction false} SetNew(fields: seq<Member>, key: string, value: Json)
    requires forall i :: 0 <= i < |fields| ==> fields[i].key != key
    ensures Set(fields, key, value) == fields + [Member(key, value)]
  {
    if fields != [] {
      SetNew(fields[1..], key, value);
      assert fields == [fields[0]] + fields[1..];
    }
  }

  lemma DistinctFront(members: seq<Member>, n: nat)
    requires DistinctKeys(members) && n == |members| - 1
    ensures DistinctKeys(members[..n]) && forall i :: 0 <= i < n ==> members[..n][i].key != members[n].key
    ensures members[..n] + [Member(members[n].key, members[n].value)] == members
  {
  }

  lemma {:induction false} FromDistinctMembers(members: seq<Member>)
    requires DistinctKeys(members)
    ensures FromMembers(members) == members
  {
    if members != [] {
      var n := |members| - 1;
      DistinctFront(members, n);
      FromDistinctMembers(members[..n]);
      SetNew(members[..n], members[n].key, members[n].value);
    }
  }

  /** No object inside repeats a key. */
  predicate Unambiguous(j: Json) {
    match j
    case JArr(items) => forall i :: 0 <= i < |items| ==> Unambiguous(items[i])
    case JObj(fields) => DistinctKeys(fields) && forall i :: 0 <= i < |fields| ==> Unambiguous(fields[i].value)
    case _ => true
  }

  // ---------- Writing ----------

  predicate IsWs(c: char) {
    c == ' ' || c == '\t' || c == '\n' || c == '\r'
  }

  function HexDigit(d: nat): (c: char)
    requires d < 16
  {
    if d < 10 then DigitChar(d) else ('a' as int + (d - 10)) as char
  }

  /** What one character of a string is written as: the escapes of `ensure_ascii=False`. */
  function EscapeChar(c: char): (e: string)
    ensures |e| > 0
  {
    if c == '"' then "\\\""
    else if c == '\\' then "\\\\"
    else if c == '\n' then "\\n"
    else if c == '\r' then "\\r"
    else if c == '\t' then "\\t"
    else if c == '\U{8}' then "\\b"
    else if c == '\U{c}' then "\\f"
    else if c < ' ' then "\\u00" + [HexDigit(c as int / 16), HexDigit(c as int % 16)]
    else [c]
  }

  function Escape(s: string): string {
    if s == "" then "" else EscapeChar(s[0]) + Escape(s[1..])
  }

  function IntText(n: int): (s: string)
    ensures |s| > 0
  {
    if n < 0 then "-" + NatText(-n) else NatText(n)
  }

  // Each writer appends its text in front of `rest`, what is written after it.

  function WriteString(s: string, rest: string): string {
    "\"" + (Escape(s) + ("\"" + rest))
  }

  function Separated(sep: char, style: Style, more: string): string {
    if style.Compact? then [sep] + more else [sep] + ([' '] + more)
  }

  function Write(j: Json, style: Style, rest: string): (w: string)
    ensures w != "" && !IsWs(w[0]) && w[0] != ']' && w[0] != '}'
    decreases j, 1
  {
    match j
    case JNull => "null" + rest
    case JBool(b) => (if b then "true" else "false") + rest
    case JInt(n) => IntText(n) + rest
    case JStr(s) => WriteString(s, rest)
    case JArr(items) => "[" + if items == [] then "]" + rest else WriteItems(items, style, rest)
    case JObj(fields) => "{" + if fields == [] then "}" + rest else WriteFields(fields, style, rest)
  }

  function WriteItems(items: seq<Json>, style: Style, rest: string): string
    requires items != []
    decreases items, 0
  {
    Write(items[0], style, if |items| == 1 then "]" + rest else Separated(',', style, WriteItems(items[1..], style, rest)))
  }

  function WriteFields(fields: seq<Member>, style: Style, rest: string): string
    requires fields != []
    decreases fields, 0
  {
    var tail := if |fields| == 1 then "}" + rest else Separated(',', style, WriteFields(fields[1..], style, rest));
    WriteString(fields[0].key, Separated(':', style, Write(fields[0].value, style, tail)))
  }

  /** `json.dumps`. */
  function Dumps(j: Json, style: Style): string {
    Write(j, style, "")
  }

  // ---------- Reading ----------

  function SkipWs(s: string): (r: string)
    ensures |r| <= |s|
  {
    if s != "" && IsWs(s[0]) then SkipWs(s[1..]) else s
  }

  function HexValue(c: char): Option<nat> {
    if IsAsciiDigit(c) then Some(DigitValue(c))
    else if 'a' <= c <= 'f' then Some(c as int - 'a' as int + 10)
    else if 'A' <= c <= 'F' then Some(c as int - 'A' as int + 10)
    else None
  }

  /** The character of a `\uXXXX` escape that is not half of a surrogate pair. */
  function UnicodeEscape(s: string): Option<char>
    requires |s| == 4
  {
    match (HexValue(s[0]), HexValue(s[1]), HexValue(s[2]), HexValue(s[3]))
    case (Some(a), Some(b), Some(c), Some(d)) =>
      var code := ((a * 16 + b) * 16 + c) * 16 + d;
      if code < 0xD800 || 0xE000 <= code < 0x10000 then Some(code as char) else None
    case _ => None
  }

  /** The character after a backslash stands for itself or for a control character. */
  function SimpleEscape(c: char): Option<char> {
    if c == '"' || c == '\\' || c == '/' then Some(c)
    else if c == 'n' then Some('\n')
    else if c == 'r' then Some('\r')
    else if c == 't' then Some('\t')
    else if c == 'b' then Some('\U{8}')
    else if c == 'f' then Some('\U{c}')
    else None
  }

  /** Reads up to the closing quote: the string and what follows it. */
  function ReadString(s: string): (r: Option<(string, string)>)
    ensures r.Some? ==> |r.value.1| < |s|
  {
    if s == "" then None
    else if s[0] == '"' then Some(("", s[1..]))
    else if s[0] == '\\' then
      if |s| < 2 then None
      else if s[1] == 'u' then
        if |s| < 6 then None
        else
          match UnicodeEscape(s[2..6])
          case None => None
          case Some(c) => Prepend(c, ReadString(s[6..]))
      else
        match SimpleEscape(s[1])
        case None => None
        case Some(c) => Prepend(c, ReadString(s[2..]))
    else if s[0] < ' ' then None
    else Prepend(s[0], ReadString(s[1..]))
  }

  function Prepend(c: char, r: Option<(string, string)>): Option<(string, string)> {
    match r
    case None => None
    case Some((text, rest)) => Some(([c] + text, rest))
  }

  /** The number of digits at the start. */
  function DigitsPrefix(s: string): (k: nat)
    ensures k <= |s| && AllDigits(s[..k])
    ensures k < |s| ==> !IsAsciiDigit(s[k])
  {
    if s != "" && IsAsciiDigit(s[0]) then 1 + DigitsPrefix(s[1..]) else 0
  }

  /** An unsigned integer; a fraction or an exponent is not read. */
  function ReadNat(s: string): (r: Option<(nat, string)>)
    ensures r.Some? ==> |r.value.1| < |s|
  {
    var k := DigitsPrefix(s);
    var used := if k > 0 && s[0] == '0' then 1 else k;
    if used == 0 || (used < |s| && s[used] in {'.', 'e', 'E'}) then None
    else Some((NatValue(s[..used]), s[used..]))
  }

  function ReadKeyword(s: string): (r: Option<(Json, string)>)
    ensures r.Some? ==> |r.value.1| < |s|
  {
    if "null" <= s then Some((JNull, s[4..]))
    else if "true" <= s then Some((JBool(true), s[4..]))
    else if "false" <= s then Some((JBool(false), s[5..]))
    else None
  }

  function ReadValue(s: string): (r: Option<(Json, string)>)
    ensures r.Some? ==> |r.value.1| < |s|
    decreases |s|, 0
  {
    if s == "" then None
    else if IsAsciiDigit(s[0]) then
      match ReadNat(s)
      case None => None
      case Some((n, rest)) => Some((JInt(n), rest))
    else if s[0] == '"' then
      match ReadString(s[1..])
      case None => None
      case Some((text, rest)) => Some((JStr(text), rest))
    else if s[0] == '[' then
      var t := SkipWs(s[1..]);
      if t != "" && t[0] == ']' then Some((JArr([]), t[1..]))
      else
        match ReadItems(t)
        case None => None
        case Some((items, rest)) => Some((JArr(items), rest))
    else if s[0] == '{' then
      var t := SkipWs(s[1..]);
      if t != "" && t[0] == '}' then Some((JObj([]), t[1..]))
      else
        match ReadMembers(t)
        case None => None
        case Some((members, rest)) => Some((JObj(FromMembers(members)), rest))
    else if s[0] == 'n' || s[0] == 't' || s[0] == 'f' then ReadKeyword(s)
    else if s[0] == '-' then
      match ReadNat(s[1..])
      case None => None
      case Some((n, rest)) => Some((JInt(0 - n), rest))
    else None
  }

  /** One or more items and the closing bracket. */
  function ReadItems(s: string): (r: Option<(seq<Json>, string)>)
    ensures r.Some? ==> |r.value.1| < |s|
    decreases |s|, 1
  {
    match ReadValue(s)
    case None => None
    case Some((item, rest)) =>
      var t := SkipWs(rest);
      if t != "" && t[0] == ']' then Some(([item], t[1..]))
      else if t != "" && t[0] == ',' then
        match ReadItems(SkipWs(t[1..]))
        case None => None
        case Some((items, end)) => Some(([item] + items, end))
      else None
  }

  /** One or more members and the closing brace. */
  function ReadMembers(s: string): (r: Option<(seq<Member>, string)>)
    ensures r.Some? ==> |r.value.1| < |s|
    decreases |s|, 1
  {
    if s == "" || s[0] != '"' then None
    else
      match ReadString(s[1..])
      case None => None
      case Some((key, rest)) =>
        var t := SkipWs(rest);
        if t == "" || t[0] != ':' then None
        else
          match ReadValue(SkipWs(t[1..]))
          case None => None
          case Some((value, rest1)) =>
            var u := SkipWs(rest1);
            if u != "" && u[0] == '}' then Some(([Member(key, value)], u[1..]))
            else if u != "" && u[0] == ',' then
              match ReadMembers(SkipWs(u[1..]))
              case None => None
              case Some((members, end)) => Some(([Member(key, value)] + members, end))
            else None
  }

  /** `json.loads`; `None` stands for `JSONDecodeError`. */
  function Loads(s: string): Option<Json> {
    match ReadValue(SkipWs(s))
    case None => None
    case Some((j, rest)) => if SkipWs(rest) == "" then Some(j) else None
  }

  // ---------- What is read repeats no key ----------

  predicate ValuesUnambiguous(fields: seq<Member>) {
    forall i :: 0 <= i < |fields| ==> Unambiguous(fields[i].value)
  }

  lemma {:induction false} SetKeepsValues(fields: seq<Member>, key: string, value: Json)
    requires ValuesUnambiguous(fields) && Unambiguous(value)
    ensures ValuesUnambiguous(Set(fields, key, value))
  {
    if fields != [] && fields[0].key != key {
      SetKeepsValues(fields[1..], key, value);
    }
  }

  lemma {:induction false} FromMembersKeepsValues(members: seq<Member>)
    requires ValuesUnambiguous(members)
    ensures ValuesUnambiguous(FromMembers(members))
  {
    if members != [] {
      var n := |members| - 1;
      FromMembersKeepsValues(members[..n]);
      SetKeepsValues(FromMembers(members[..n]), members[n].key, members[n].value);
    }
  }

  lemma {:induction false} ReadValueUnambiguous(s: string)
    ensures ReadValue(s).Some? ==> Unambiguous(ReadValue(s).value.0)
    decreases |s|, 0
  {
    if s != "" && s[0] == '[' {
      var t := SkipWs(s[1..]);
      if !(t != "" && t[0] == ']') { ReadItemsUnambiguous(t); }
    } else if s != "" && s[0] == '{' {
      var t := SkipWs(s[1..]);
      if !(t != "" && t[0] == '}') {
        ReadMembersUnambiguous(t);
        if ReadMembers(t).Some? { FromMembersKeepsValues(ReadMembers(t).value.0); }
      }
    }
  }

  lemma {:induction false} ReadItemsUnambiguous(s: string)
    ensures ReadItems(s).Some? ==> forall i :: 0 <= i < |ReadItems(s).value.0| ==> Unambiguous(ReadItems(s).value.0[i])
    decreases |s|, 1
  {
    ReadValueUnambiguous(s);
    if ReadItems(s).Some? {
      var t := SkipWs(ReadValue(s).value.1);
      if t[0] == ',' { ReadItemsUnambiguous(SkipWs(t[1..])); }
    }
  }

  lemma {:induction false} ReadMembersUnambiguous(s: string)
    ensures ReadMembers(s).Some? ==> ValuesUnambiguous(ReadMembers(s).value.0)
    decreases |s|, 1
  {
    if ReadMembers(s).Some? {
      var t := SkipWs(ReadString(s[1..]).value.1);
      var v := SkipWs(t[1..]);
      ReadValueUnambiguous(v);
      var u := SkipWs(ReadValue(v).value.1);
      if u[0] == ',' { ReadMembersUnambiguous(SkipWs(u[1..])); }
    }
  }

  /** A text with a repeated key still gives a dictionary without one. */
  lemma LoadsUnambiguous(s: string)
    ensures Loads(s).Some? ==> Unambiguous(Loads(s).value)
  {
    ReadValueUnambiguous(SkipWs(s));
  }

  // ---------- Reading back what was written ----------

  lemma HexRoundTrip(c: char)
    requires c < ' '
    ensures UnicodeEscape("00" + [HexDigit(c as int / 16), HexDigit(c as int % 16)]) == Some(c)
  {
  }

  lemma SixThenRest(x: string, rest: string)
    requires |x| == 6
    ensures (x + rest)[2..6] == x[2..6] && (x + rest)[6..] == rest
  {
  }

  lemma EscapedByCode(c: char)
    requires SimpleEscape(c).None? && c < ' ' && EscapeChar(c)[1] == 'u'
    ensures |EscapeChar(c)| == 6 && EscapeChar(c)[0] == '\\'
    ensures EscapeChar(c)[2..6] == "00" + [HexDigit(c as int / 16), HexDigit(c as int % 16)]
  {
  }

  lemma ReadEscapedChar(c: char, rest: string)
    ensures ReadString(EscapeChar(c) + rest) == Prepend(c, ReadString(rest))
  {
    if SimpleEscape(c).None? && c < ' ' && EscapeChar(c)[1] == 'u' {
      HexRoundTrip(c);
      EscapedByCode(c);
      SixThenRest(EscapeChar(c), rest);
    } else {
      assert (EscapeChar(c) + rest)[|EscapeChar(c)|..] == rest;
    }
  }

  lemma ReadQuote(rest: string)
    ensures ReadString("\"" + rest) == Some(("", rest))
  {
    assert ("\"" + rest)[1..] == rest;
  }

  lemma {:induction false} ReadEscaped(text: string, rest: string)
    ensures ReadString(Escape(text) + ("\"" + rest)) == Some((text, rest))
  {
    if text == "" {
      assert Escape(text) + ("\"" + rest) == "\"" + rest;
      ReadQuote(rest);
    } else {
      var after := Escape(text[1..]) + ("\"" + rest);
      ReadEscaped(text[1..], rest);
      ReadEscapedChar(text[0], after);
      HeadAndTail(text);
      ConcatAssociative(EscapeChar(text[0]), Escape(text[1..]), "\"" + rest);
    }
  }

  lemma ConcatAssociative(a: string, b: string, c: string)
    ensures (a + b) + c == a + (b + c)
  {
  }

  /** What may follow a written value without becoming part of it. */
  predicate Terminated(rest: string) {
    rest == "" || (!IsAsciiDigit(rest[0]) && rest[0] !in {'.', 'e', 'E'})
  }

  lemma {:induction false} DigitsThenRest(s: string, rest: string)
    requires AllDigits(s) && Terminated(rest)
    ensures DigitsPrefix(s + rest) == |s|
  {
    if s == "" {
      assert s + rest == rest;
    } else {
      assert (s + rest)[1..] == s[1..] + rest;
      DigitsThenRest(s[1..], rest);
    }
  }

  lemma ReadNatText(n: nat, rest: string)
    requires Terminated(rest)
    ensures ReadNat(NatText(n) + rest) == Some((n, rest))
  {
    DigitsThenRest(NatText(n), rest);
    NatTextValue(n);
    assert (NatText(n) + rest)[..|NatText(n)|] == NatText(n);
    assert (NatText(n) + rest)[|NatText(n)|..] == rest;
  }

  lemma AfterSeparator(sep: char, style: Style, more: string)
    requires !IsWs(sep) && more != "" && !IsWs(more[0])
    ensures var t := Separated(sep, style, more);
            t != "" && SkipWs(t) == t && t[0] == sep && SkipWs(t[1..]) == more && (sep == ',' ==> Terminated(t))
  {
    var t := Separated(sep, style, more);
    if style.Compact? {
      assert t[1..] == more;
    } else {
      assert t[1..] == [' '] + more;
      assert t[1..][1..] == more;
    }
  }

  // What the readers do in each case, on any text.

  lemma ReadUnsigned(n: nat, s: string, rest: string)
    requires s != "" && IsAsciiDigit(s[0]) && ReadNat(s) == Some((n, rest))
    ensures ReadValue(s) == Some((JInt(n), rest))
  {
  }

  lemma ReadSigned(n: int, t: string, rest: string)
    requires n < 0 && ReadNat(t) == Some((-n, rest))
    ensures ReadValue("-" + t) == Some((JInt(n), rest))
  {
    assert ("-" + t)[1..] == t;
  }

  lemma ReadEmpty(rest: string)
    ensures ReadValue("[" + ("]" + rest)) == Some((JArr([]), rest))
    ensures ReadValue("{" + ("}" + rest)) == Some((JObj([]), rest))
  {
    assert ("[" + ("]" + rest))[1..] == "]" + rest && ("]" + rest)[1..] == rest;
    assert ("{" + ("}" + rest))[1..] == "}" + rest && ("}" + rest)[1..] == rest;
  }

  lemma ReadArray(t: string, items: seq<Json>, rest: string)
    requires t != "" && !IsWs(t[0]) && t[0] != ']' && ReadItems(t) == Some((items, rest))
    ensures ReadValue("[" + t) == Some((JArr(items), rest))
  {
    assert ("[" + t)[1..] == t;
  }

  lemma ReadObject(t: string, members: seq<Member>, rest: string)
    requires t != "" && !IsWs(t[0]) && t[0] != '}' && ReadMembers(t) == Some((members, rest))
    ensures ReadValue("{" + t) == Some((JObj(FromMembers(members)), rest))
  {
    assert ("{" + t)[1..] == t;
  }

  lemma LastItem(s: string, item: Json, tail: string)
    requires ReadValue(s) == Some((item, tail)) && tail != "" && tail[0] == ']'
    ensures ReadItems(s) == Some(([item], tail[1..]))
  {
  }

  lemma NextItem(s: string, item: Json, tail: string, more: string, items: seq<Json>, end: string)
    requires ReadValue(s) == Some((item, tail)) && tail != "" && tail[0] == ',' && SkipWs(tail[1..]) == more
    requires ReadItems(more) == Some((items, end))
    ensures ReadItems(s) == Some(([item] + items, end))
  {
  }

  lemma LastMember(s: string, m: Member, colon: string, value: string, tail: string)
    requires s != "" && s[0] == '"' && ReadString(s[1..]) == Some((m.key, colon))
    requires colon != "" && colon[0] == ':' && SkipWs(colon[1..]) == value
    requires ReadValue(value) == Some((m.value, tail)) && tail != "" && tail[0] == '}'
    ensures ReadMembers(s) == Some(([m], tail[1..]))
  {
  }

  lemma NextMember(s: string, m: Member, colon: string, value: string, tail: string, more: string, members: seq<Member>, end: string)
    requires s != "" && s[0] == '"' && ReadString(s[1..]) == Some((m.key, colon))
    requires colon != "" && colon[0] == ':' && SkipWs(colon[1..]) == value
    requires ReadValue(value) == Some((m.value, tail)) && tail != "" && tail[0] == ',' && SkipWs(tail[1..]) == more
    requires ReadMembers(more) == Some((members, end))
    ensures ReadMembers(s) == Some(([m] + members, end))
  {
  }

  lemma ReadWrittenInt(n: int, rest: string)
    requires Terminated(rest)
    ensures ReadValue(IntText(n) + rest) == Some((JInt(n), rest))
  {
    if n < 0 {
      var digits := NatText(-n);
      ReadNatText(-n, rest);
      assert ("-" + digits) + rest == "-" + (digits + rest);
      ReadSigned(n, digits + rest, rest);
    } else {
      ReadNatText(n, rest);
      ReadUnsigned(n, NatText(n) + rest, rest);
    }
  }

  lemma ReadWrittenKeyword(j: Json, text: string, rest: string)
    requires text == if j.JNull? then "null" else if j.JBool? && j.b then "true" else "false"
    requires j.JNull? || j.JBool?
    ensures ReadValue(text + rest) == Some((j, rest))
  {
    assert (text + rest)[..|text|] == text;
    assert (text + rest)[|text|..] == rest;
  }

  lemma ReadWrittenString(text: string, rest: string)
    ensures WriteString(text, rest)[0] == '"'
    ensures ReadString(WriteString(text, rest)[1..]) == Some((text, rest))
  {
    ReadEscaped(text, rest);
    assert WriteString(text, rest)[1..] == Escape(text) + ("\"" + rest);
  }

  lemma {:induction false} ReadWritten(j: Json, style: Style, rest: string)
    requires Unambiguous(j) && Terminated(rest)
    ensures ReadValue(Write(j, style, rest)) == Some((j, rest))
    decreases j, 1
  {
    match j
    case JNull => ReadWrittenKeyword(j, "null", rest);
    case JBool(b) => ReadWrittenKeyword(j, if b then "true" else "false", rest);
    case JInt(n) => ReadWrittenInt(n, rest);
    case JStr(text) => ReadWrittenString(text, rest);
    case JArr(items) =>
      if items == [] {
        ReadEmpty(rest);
      } else {
        ReadWrittenItems(items, style, rest);
        ReadArray(WriteItems(items, style, rest), items, rest);
      }
    case JObj(fields) =>
      if fields == [] {
        ReadEmpty(rest);
      } else {
        ReadWrittenFields(fields, style, rest);
        FromDistinctMembers(fields);
        ReadObject(WriteFields(fields, style, rest), fields, rest);
      }
  }

  lemma HeadAndTail<T>(s: seq<T>)
    requires s != []
    ensures [s[0]] + s[1..] == s
  {
  }

  lemma LastItemWritten(item: Json, style: Style, rest: string)
    requires ReadValue(Write(item, style, "]" + rest)) == Some((item, "]" + rest))
    ensures var s := WriteItems([item], style, rest); s != "" && !IsWs(s[0]) && s[0] != ']' && ReadItems(s) == Some(([item], rest))
  {
    var tail := "]" + rest;
    assert tail[1..] == rest;
    LastItem(Write(item, style, tail), item, tail);
  }

  lemma NextItemWritten(items: seq<Json>, style: Style, rest: string, more: string, tail: string)
    requires |items| > 1 && more == WriteItems(items[1..], style, rest) && tail == Separated(',', style, more)
    requires more != "" && !IsWs(more[0]) && ReadItems(more) == Some((items[1..], rest))
    requires ReadValue(Write(items[0], style, tail)) == Some((items[0], tail))
    ensures var s := WriteItems(items, style, rest); s != "" && !IsWs(s[0]) && s[0] != ']' && ReadItems(s) == Some((items, rest))
  {
    AfterSeparator(',', style, more);
    NextItem(Write(items[0], style, tail), items[0], tail, more, items[1..], rest);
    HeadAndTail(items);
  }

  lemma {:induction false} ReadWrittenItems(items: seq<Json>, style: Style, rest: string)
    requires items != [] && forall i :: 0 <= i < |items| ==> Unambiguous(items[i])
    ensures var s := WriteItems(items, style, rest);
            s != "" && !IsWs(s[0]) && s[0] != ']' && ReadItems(s) == Some((items, rest))
    decreases items, 0
  {
    if |items| == 1 {
      ReadWritten(items[0], style, "]" + rest);
      LastItemWritten(items[0], style, rest);
      assert items == [items[0]];
    } else {
      var more := WriteItems(items[1..], style, rest);
      ReadWrittenItems(items[1..], style, rest);
      AfterSeparator(',', style, more);
      ReadWritten(items[0], style, Separated(',', style, more));
      NextItemWritten(items, style, rest, more, Separated(',', style, more));
    }
  }

  lemma LastMemberWritten(m: Member, style: Style, rest: string)
    requires ReadValue(Write(m.value, style, "}" + rest)) == Some((m.value, "}" + rest))
    ensures var s := WriteFields([m], style, rest); s != "" && s[0] == '"' && ReadMembers(s) == Some(([m], rest))
  {
    var tail := "}" + rest;
    var value := Write(m.value, style, tail);
    AfterSeparator(':', style, value);
    ReadWrittenString(m.key, Separated(':', style, value));
    assert tail[1..] == rest;
    LastMember(WriteString(m.key, Separated(':', style, value)), m, Separated(':', style, value), value, tail);
  }

  lemma NextMemberWritten(fields: seq<Member>, style: Style, rest: string, more: string, tail: string)
    requires |fields| > 1 && more == WriteFields(fields[1..], style, rest) && tail == Separated(',', style, more)
    requires more != "" && !IsWs(more[0]) && ReadMembers(more) == Some((fields[1..], rest))
    requires ReadValue(Write(fields[0].value, style, tail)) == Some((fields[0].value, tail))
    ensures var s := WriteFields(fields, style, rest); s != "" && s[0] == '"' && ReadMembers(s) == Some((fields, rest))
  {
    var m := fields[0];
    var value := Write(m.value, style, tail);
    AfterSeparator(',', style, more);
    AfterSeparator(':', style, value);
    ReadWrittenString(m.key, Separated(':', style, value));
    NextMember(WriteString(m.key, Separated(':', style, value)), m, Separated(':', style, value), value, tail, more, fields[1..], rest);
    HeadAndTail(fields);
  }

  lemma {:induction false} ReadWrittenFields(fields: seq<Member>, style: Style, rest: string)
    requires fields != [] && forall i :: 0 <= i < |fields| ==> Unambiguous(fields[i].value)
    ensures var s := WriteFields(fields, style, rest);
            s != "" && s[0] == '"' && ReadMembers(s) == Some((fields, rest))
    decreases fields, 0
  {
    if |fields| == 1 {
      ReadWritten(fields[0].value, style, "}" + rest);
      LastMemberWritten(fields[0], style, rest);
      assert fields == [fields[0]];
    } else {
      var more := WriteFields(fields[1..], style, rest);
      ReadWrittenFields(fields[1..], style, rest);
      AfterSeparator(',', style, more);
      ReadWritten(fields[0].value, style, Separated(',', style, more));
      NextMemberWritten(fields, style, rest, more, Separated(',', style, more));
    }
  }

  /** `json.loads(json.dumps(j))` is `j`, with either pair of separators. */
  lemma LoadsDumps(j: Json, style: Style)
    requires Unambiguous(j)
    ensures Loads(Dumps(j, style)) == Some(j)
  {
    ReadWritten(j, style, "");
  }
}
