/**
What the JSON reader makes of a text that is cut short: what it read it reads again when more text follows,
so a proper prefix of a written object is no JSON text.
*/
module JsonPrefix {
  import opened Options
  import opened Json
  import opened Text

  lemma TailOf(s: string, t: string, n: nat)
    requires n <= |s|
    ensures (s + t)[n..] == s[n..] + t
  {
  }

  lemma {:induction false} SkipWsMore(s: string, t: string)
    requires SkipWs(s) != ""
    ensures SkipWs(s + t) == SkipWs(s) + t
  {
    if IsWs(s[0]) {
      TailOf(s, t, 1);
      SkipWsMore(s[1..], t);
    }
  }

  lemma {:induction false} ReadStringMore(s: string, t: string)
    requires ReadString(s).Some?
    ensures ReadString(s + t) == Some((ReadString(s).value.0, ReadString(s).value.1 + t))
  {
    if s[0] == '"' {
      TailOf(s, t, 1);
    } else if s[0] == '\\' && s[1] == 'u' {
      TailOf(s, t, 6);
      assert (s + t)[2..6] == s[2..6];
      ReadStringMore(s[6..], t);
    } else if s[0] == '\\' {
      TailOf(s, t, 2);
      ReadStringMore(s[2..], t);
    } else {
      TailOf(s, t, 1);
      ReadStringMore(s[1..], t);
    }
  }

  lemma {:induction false} DigitsPrefixMore(s: string, t: string)
    ensures DigitsPrefix(s + t) == DigitsPrefix(s) || DigitsPrefix(s) == |s| <= DigitsPrefix(s + t)
  {
    if s != "" && IsAsciiDigit(s[0]) {
      TailOf(s, t, 1);
      DigitsPrefixMore(s[1..], t);
    }
  }

  lemma ReadNatMore(s: string, t: string)
    requires ReadNat(s).Some? && ReadNat(s).value.1 != ""
    ensures ReadNat(s + t) == Some((ReadNat(s).value.0, ReadNat(s).value.1 + t))
  {
    var k := DigitsPrefix(s);
    var used := if k > 0 && s[0] == '0' then 1 else k;
    DigitsPrefixMore(s, t);
    TailOf(s, t, used);
    assert (s + t)[..used] == s[..used];
  }

  lemma ReadKeywordMore(s: string, t: string)
    requires ReadKeyword(s).Some?
    ensures ReadKeyword(s + t) == Some((ReadKeyword(s).value.0, ReadKeyword(s).value.1 + t))
  {
    if "null" <= s || "true" <= s {
      TailOf(s, t, 4);
    } else {
      TailOf(s, t, 5);
    }
  }

  predicate StartsNumber(s: string) {
    s != "" && (IsAsciiDigit(s[0]) || s[0] == '-')
  }

  lemma ReadNumberMore(s: string, t: string)
    requires StartsNumber(s) && ReadValue(s).Some? && ReadValue(s).value.1 != ""
    ensures ReadValue(s + t) == Some((ReadValue(s).value.0, ReadValue(s).value.1 + t))
  {
    if s[0] == '-' {
      TailOf(s, t, 1);
      ReadNatMore(s[1..], t);
    } else {
      ReadNatMore(s, t);
    }
  }

  lemma ReadScalarMore(s: string, t: string)
    requires s != "" && !StartsNumber(s) && s[0] != '[' && s[0] != '{' && ReadValue(s).Some?
    ensures ReadValue(s + t) == Some((ReadValue(s).value.0, ReadValue(s).value.1 + t))
  {
    if s[0] == '"' {
      TailOf(s, t, 1);
      ReadStringMore(s[1..], t);
    } else {
      ReadKeywordMore(s, t);
    }
  }

  /** Only a number at the very end of the text can come out otherwise when more follows. */
  lemma {:induction false} ReadValueMore(s: string, t: string)
    requires ReadValue(s).Some? && (StartsNumber(s) ==> ReadValue(s).value.1 != "")
    ensures ReadValue(s + t) == Some((ReadValue(s).value.0, ReadValue(s).value.1 + t))
    decreases |s|, 0
  {
    if StartsNumber(s) {
      ReadNumberMore(s, t);
    } else if s[0] == '[' {
      ReadArrayMore(s, t);
    } else if s[0] == '{' {
      ReadObjectMore(s, t);
    } else {
      ReadScalarMore(s, t);
    }
  }

  lemma {:induction false} ReadArrayMore(s: string, t: string)
    requires s != "" && s[0] == '[' && ReadValue(s).Some?
    ensures ReadValue(s + t) == Some((ReadValue(s).value.0, ReadValue(s).value.1 + t))
    decreases |s|, 0, 0
  {
    var u := SkipWs(s[1..]);
    TailOf(s, t, 1);
    SkipWsMore(s[1..], t);
    TailOf(u, t, 1);
    if u[0] != ']' {
      ReadItemsMore(u, t);
    }
  }

  lemma {:induction false} ReadObjectMore(s: string, t: string)
    requires s != "" && s[0] == '{' && ReadValue(s).Some?
    ensures ReadValue(s + t) == Some((ReadValue(s).value.0, ReadValue(s).value.1 + t))
    decreases |s|, 0, 0
  {
    var u := SkipWs(s[1..]);
    TailOf(s, t, 1);
    SkipWsMore(s[1..], t);
    TailOf(u, t, 1);
    if u[0] != '}' {
      ReadMembersMore(u, t);
    }
  }

  lemma {:induction false} ReadItemsMore(s: string, t: string)
    requires ReadItems(s).Some?
    ensures ReadItems(s + t) == Some((ReadItems(s).value.0, ReadItems(s).value.1 + t))
    decreases |s|, 1
  {
    var rest := ReadValue(s).value.1;
    var u := SkipWs(rest);
    ReadValueMore(s, t);
    SkipWsMore(rest, t);
    TailOf(u, t, 1);
    if u[0] == ',' {
      SkipWsMore(u[1..], t);
      ReadItemsMore(SkipWs(u[1..]), t);
    }
  }

  lemma {:induction false} ReadMemberMore(s: string, t: string, afterKey: string, colon: string, value: string, rest: string)
    requires ReadMembers(s).Some? && afterKey == ReadString(s[1..]).value.1 && colon == SkipWs(afterKey)
    requires value == SkipWs(colon[1..]) && rest == ReadValue(value).value.1
    ensures ReadString((s + t)[1..]) == Some((ReadString(s[1..]).value.0, afterKey + t))
    ensures SkipWs(afterKey + t) == colon + t && SkipWs((colon + t)[1..]) == value + t
    ensures ReadValue(value + t) == Some((ReadValue(value).value.0, rest + t)) && SkipWs(rest + t) == SkipWs(rest) + t
    decreases |s|, 1, 0
  {
    TailOf(s, t, 1);
    ReadStringMore(s[1..], t);
    SkipWsMore(afterKey, t);
    TailOf(colon, t, 1);
    SkipWsMore(colon[1..], t);
    ReadValueMore(value, t);
    SkipWsMore(rest, t);
  }

  /** One member and what follows it, piece by piece. */
  lemma MembersRead(s: string, key: string, afterKey: string, colon: string, value: string, v: Json, rest: string, u: string)
    requires s != "" && s[0] == '"' && ReadString(s[1..]) == Some((key, afterKey)) && SkipWs(afterKey) == colon
    requires colon != "" && colon[0] == ':' && SkipWs(colon[1..]) == value
    requires ReadValue(value) == Some((v, rest)) && SkipWs(rest) == u && u != ""
    ensures u[0] == '}' ==> ReadMembers(s) == Some(([Member(key, v)], u[1..]))
    ensures u[0] == ',' && ReadMembers(SkipWs(u[1..])).Some? ==>
              ReadMembers(s) == Some(([Member(key, v)] + ReadMembers(SkipWs(u[1..])).value.0, ReadMembers(SkipWs(u[1..])).value.1))
  {
  }

  lemma {:induction false} ReadMembersMore(s: string, t: string)
    requires ReadMembers(s).Some?
    ensures ReadMembers(s + t) == Some((ReadMembers(s).value.0, ReadMembers(s).value.1 + t))
    decreases |s|, 1
  {
    var key, afterKey := ReadString(s[1..]).value.0, ReadString(s[1..]).value.1;
    var colon := SkipWs(afterKey);
    var value := SkipWs(colon[1..]);
    var v, rest := ReadValue(value).value.0, ReadValue(value).value.1;
    var u := SkipWs(rest);
    ReadMemberMore(s, t, afterKey, colon, value, rest);
    MembersRead(s, key, afterKey, colon, value, v, rest, u);
    MembersRead(s + t, key, afterKey + t, colon + t, value + t, v, rest + t, u + t);
    TailOf(u, t, 1);
    if u[0] == ',' {
      SkipWsMore(u[1..], t);
      ReadMembersMore(SkipWs(u[1..]), t);
    }
  }

  /** A text that reads as one object to its end has no proper prefix that reads at all. */
  lemma ProperPrefixFails(d: string, j: Json, p: string)
    requires ReadValue(d) == Some((j, "")) && p <= d && p != d && p != "" && p[0] == '{'
    ensures Loads(p) == None
  {
    var t := d[|p|..];
    assert p + t == d;
    if ReadValue(p).Some? {
      ReadValueMore(p, t);
    }
  }
}
