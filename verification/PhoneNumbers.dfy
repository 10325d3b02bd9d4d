/**
What an international phone number is, said without the matcher: a prefix, a country code and eight to
thirteen digits with single separators between them. The backtracking matcher of PhoneMask.dfy finds exactly
these, and of those that start at one place the longest.
*/
module PhoneNumbers {
  import opened Options
  import opened PhoneMask

  /** Digits and separators, a digit at either end, no two separators in a row. */
  predicate Grouped(s: string, q: int, e: int, d: char -> bool) {
    && 0 <= q < e <= |s| && d(s[q]) && d(s[e - 1])
    && (forall k :: q <= k < e ==> d(s[k]) || IsSeparator(s, k))
    && (forall k :: q <= k < e - 1 && IsSeparator(s, k) ==> d(s[k + 1]))
  }

  function Digits(s: string, q: int, e: int, d: char -> bool): nat
    requires 0 <= q <= e <= |s|
  {
    |DigitsOf(s[q..e], d)|
  }

  /** A grouped stretch of `low` to `high` digits that no digit follows. */
  predicate NumberAt(s: string, q: int, e: int, low: int, high: int, d: char -> bool) {
    Grouped(s, q, e, d) && low <= Digits(s, q, e, d) <= high && !DigitAt(s, e, d)
  }

  /** The number itself, after at most one separator. */
  predicate RestAt(s: string, q: int, e: int, d: char -> bool) {
    NumberAt(s, q, e, 8, 13, d) || (IsSeparator(s, q) && NumberAt(s, q + 1, e, 8, 13, d))
  }

  predicate AllDigitsAt(s: string, q: int, n: nat, d: char -> bool) {
    0 <= q && q + n <= |s| && forall k :: q <= k < q + n ==> d(s[k])
  }

  /** `n` further digits of a country code, and the rest. */
  predicate CountryAt(s: string, q: int, n: nat, e: int, d: char -> bool) {
    AllDigitsAt(s, q, n, d) && RestAt(s, q + n, e, d)
  }

  /** A country code of one digit that is not 0 and up to two more, and the rest. */
  predicate CodeAt(s: string, q: int, n: nat, e: int, d: char -> bool) {
    0 <= q < |s| && '1' <= s[q] <= '9' && n <= 2 && CountryAt(s, q + 1, n, e, d)
  }

  /** `+`, or `00`, from `i` up to `q`. */
  predicate PrefixAt(s: string, i: int, q: int) {
    0 <= i < |s| && if s[i] == '+' then q == i + 1 else i + 1 < |s| && s[i] == '0' && s[i + 1] == '0' && q == i + 2
  }

  /** An international number from `i` to `e`, not in the middle of a digit run. */
  ghost predicate InternationalAt(s: string, i: int, e: int, d: char -> bool) {
    && !DigitAt(s, i - 1, d)
    && exists q, n: nat :: PrefixAt(s, i, q) && CodeAt(s, q, n, e, d)
  }

  // ---------- The groups ----------

  lemma DigitStep(s: string, q: nat, e: nat, d: char -> bool)
    requires q < e <= |s|
    ensures Digits(s, q, e, d) == (if d(s[q]) then 1 else 0) + Digits(s, q + 1, e, d)
  {
    assert s[q..e][1..] == s[q + 1..e];
  }

  lemma OneDigit(s: string, q: nat, d: char -> bool)
    requires q < |s| && d(s[q])
    ensures Digits(s, q, q + 1, d) == 1 && Grouped(s, q, q + 1, d)
  {
    DigitStep(s, q, q + 1, d);
    assert s[q + 1..q + 1] == "";
  }

  /** A digit, and perhaps a separator, before a grouped stretch. */
  lemma GroupBefore(s: string, q: nat, m: nat, e: nat, d: char -> bool)
    requires IsDigitClass(d) && q < |s| && d(s[q]) && Grouped(s, m, e, d)
    requires m == q + 1 || (m == q + 2 && IsSeparator(s, q + 1))
    ensures Grouped(s, q, e, d) && Digits(s, q, e, d) == 1 + Digits(s, m, e, d)
  {
    DigitStep(s, q, e, d);
    if m == q + 2 {
      DigitStep(s, q + 1, e, d);
    }
  }

  lemma {:induction false} GroupsSound(s: string, q: nat, count: nat, d: char -> bool)
    requires IsDigitClass(d) && q <= |s| && count <= 12 && MatchGroups(s, q, count, d).Some?
    ensures NumberAt(s, q, MatchGroups(s, q, count, d).value, 8 - count, 13 - count, d)
    decreases |s| - q
  {
    var e := MatchGroups(s, q, count, d).value;
    var m := NextGroup(s, q, count, d);
    if m == e {
      OneDigit(s, q, d);
    } else {
      GroupsSound(s, m, count + 1, d);
      GroupBefore(s, q, m, e, d);
    }
  }

  /** Where a match goes on after its first digit, or that it ends there. */
  lemma NextGroup(s: string, q: nat, count: nat, d: char -> bool) returns (m: nat)
    requires q <= |s| && MatchGroups(s, q, count, d).Some?
    ensures DigitAt(s, q, d) && !DigitAt(s, MatchGroups(s, q, count, d).value, d)
    ensures m == MatchGroups(s, q, count, d).value ==> m == q + 1 && count >= 7
    ensures m != MatchGroups(s, q, count, d).value ==>
              && count < 12 && m <= |s| && (m == q + 1 || (m == q + 2 && IsSeparator(s, q + 1)))
              && MatchGroups(s, m, count + 1, d) == MatchGroups(s, q, count, d)
  {
    if count < 12 && IsSeparator(s, q + 1) && MatchGroups(s, q + 2, count + 1, d).Some? {
      m := q + 2;
    } else {
      m := q + 1;
    }
  }

  /** What is left of a grouped stretch after its first digit and the separator behind it. */
  lemma GroupAfter(s: string, q: nat, e: nat, d: char -> bool) returns (m: nat)
    requires IsDigitClass(d) && Grouped(s, q, e, d) && e > q + 1
    ensures m == if IsSeparator(s, q + 1) then q + 2 else q + 1
    ensures Grouped(s, m, e, d) && Digits(s, q, e, d) == 1 + Digits(s, m, e, d) && Digits(s, m, e, d) >= 1
  {
    m := if IsSeparator(s, q + 1) then q + 2 else q + 1;
    DigitStep(s, q, e, d);
    if m == q + 2 {
      DigitStep(s, q + 1, e, d);
    }
    DigitStep(s, m, e, d);
  }

  /** The matcher finds a number that is there, or a longer one. */
  lemma {:induction false} GroupsComplete(s: string, q: nat, count: nat, e: nat, d: char -> bool)
    requires IsDigitClass(d) && q <= |s| && NumberAt(s, q, e, 8 - count, 13 - count, d)
    ensures MatchGroups(s, q, count, d).Some? && MatchGroups(s, q, count, d).value >= e
    decreases |s| - q
  {
    if e == q + 1 {
      OneDigit(s, q, d);
    } else {
      var m := GroupAfter(s, q, e, d);
      GroupsComplete(s, m, count + 1, e, d);
    }
  }

  // ---------- Number and country code ----------

  lemma RestSound(s: string, q: nat, d: char -> bool)
    requires IsDigitClass(d) && q <= |s| && MatchNumber(s, q, d).Some?
    ensures RestAt(s, q, MatchNumber(s, q, d).value, d)
  {
    if IsSeparator(s, q) && MatchGroups(s, q + 1, 0, d).Some? {
      GroupsSound(s, q + 1, 0, d);
    } else {
      GroupsSound(s, q, 0, d);
    }
  }

  lemma RestComplete(s: string, q: nat, e: nat, d: char -> bool)
    requires IsDigitClass(d) && q <= |s| && RestAt(s, q, e, d)
    ensures MatchNumber(s, q, d).Some? && MatchNumber(s, q, d).value >= e
  {
    if NumberAt(s, q, e, 8, 13, d) {
      GroupsComplete(s, q, 0, e, d);
    } else {
      GroupsComplete(s, q + 1, 0, e, d);
    }
  }

  lemma {:induction false} CountrySound(s: string, q: nat, n: nat, d: char -> bool) returns (m: nat)
    requires IsDigitClass(d) && q <= |s| && n <= 2 && MatchCountry(s, q, n, d).Some?
    ensures m <= n && CountryAt(s, q, m, MatchCountry(s, q, n, d).value, d)
  {
    if q + n <= |s| && (forall k :: q <= k < q + n ==> d(s[k])) && MatchNumber(s, q + n, d).Some? {
      RestSound(s, q + n, d);
      m := n;
    } else {
      m := CountrySound(s, q, n - 1, d);
    }
  }

  /** The digits of a grouped stretch from a later place on: fewer by those passed over. */
  lemma {:induction false} DigitsLeft(s: string, q: nat, m: nat, e: nat, d: char -> bool)
    requires q <= m <= e <= |s|
    ensures Digits(s, q, e, d) == Digits(s, q, m, d) + Digits(s, m, e, d)
    decreases m - q
  {
    if q < m {
      DigitStep(s, q, e, d);
      DigitStep(s, q, m, d);
      DigitsLeft(s, q + 1, m, e, d);
    } else {
      assert s[q..m] == "";
    }
  }

  /** A stretch that starts in a country code with `n` digits and goes on after the number found behind it is a number there too. */
  lemma LaterStart(s: string, q: nat, k: nat, n: nat, e: nat, found: nat, d: char -> bool)
    requires IsDigitClass(d) && k < n && AllDigitsAt(s, q, n, d)
    requires RestAt(s, q + k, e, d) && RestAt(s, q + n, found, d) && found < e
    ensures RestAt(s, q + n, e, d)
  {
    var start := if IsSeparator(s, q + n) then q + n + 1 else q + n;
    assert NumberAt(s, start, found, 8, 13, d) && NumberAt(s, q + k, e, 8, 13, d);
    DigitsLeft(s, q + k, start, e, d);
    DigitsLeft(s, start, found, e, d);
    assert Grouped(s, start, e, d);
  }

  lemma {:induction false} CountryComplete(s: string, q: nat, n: nat, k: nat, e: nat, d: char -> bool)
    requires IsDigitClass(d) && q <= |s| && k <= n <= 2 && CountryAt(s, q, k, e, d)
    ensures MatchCountry(s, q, n, d).Some? && MatchCountry(s, q, n, d).value >= e
  {
    if AllDigitsAt(s, q, n, d) && MatchNumber(s, q + n, d).Some? {
      var found := MatchNumber(s, q + n, d).value;
      RestSound(s, q + n, d);
      if found < e && k < n {
        LaterStart(s, q, k, n, e, found, d);
      }
      if found < e {
        RestComplete(s, q + n, e, d);
      }
    } else if k == n {
      RestComplete(s, q + n, e, d);
    } else {
      CountryComplete(s, q, n - 1, k, e, d);
    }
  }

  // ---------- The pattern ----------

  lemma PrefixIs(s: string, i: nat)
    requires i < |s| && s[i] != '+'
    ensures "00" <= s[i..] <==> i + 1 < |s| && s[i] == '0' && s[i + 1] == '0'
  {
    if i + 1 < |s| {
      assert s[i..][0] == s[i] && s[i..][1] == s[i + 1];
    }
  }

  /**
  The matcher hits at `i` if and only if an international number starts there, and what it takes is the
  longest one.
  */
  lemma InternationalExact(s: string, i: nat, d: char -> bool)
    requires IsDigitClass(d) && i < |s|
    ensures Find(International, s, i, d).Some? <==> exists e :: InternationalAt(s, i, e, d)
    ensures Find(International, s, i, d).Some? ==> InternationalAt(s, i, Find(International, s, i, d).value, d)
    ensures forall e :: InternationalAt(s, i, e, d) ==> Find(International, s, i, d).Some? && Find(International, s, i, d).value >= e
  {
    if s[i] != '+' {
      PrefixIs(s, i);
    }
    if MatchInternational(s, i, d).Some? {
      FoundIsThere(s, i, d);
    }
    forall e | InternationalAt(s, i, e, d)
      ensures MatchInternational(s, i, d).Some? && MatchInternational(s, i, d).value >= e
    {
      ThereIsFound(s, i, e, d);
    }
  }

  lemma FoundIsThere(s: string, i: nat, d: char -> bool)
    requires IsDigitClass(d) && i < |s| && MatchInternational(s, i, d).Some?
    ensures InternationalAt(s, i, MatchInternational(s, i, d).value, d)
  {
    if s[i] != '+' {
      PrefixIs(s, i);
    }
    var q := if s[i] == '+' then i + 1 else i + 2;
    var n := CountrySound(s, q + 1, 2, d);
    assert PrefixAt(s, i, q) && CodeAt(s, q, n, MatchInternational(s, i, d).value, d);
  }

  lemma ThereIsFound(s: string, i: nat, e: int, d: char -> bool)
    requires IsDigitClass(d) && i < |s| && InternationalAt(s, i, e, d)
    ensures MatchInternational(s, i, d).Some? && MatchInternational(s, i, d).value >= e
  {
    if s[i] != '+' {
      PrefixIs(s, i);
    }
    var q, n: nat :| PrefixAt(s, i, q) && CodeAt(s, q, n, e, d);
    CountryComplete(s, q + 1, 2, n, e, d);
  }

  // ---------- What a pass does ----------

  lemma CopyBefore(s: string, i: nat, j: nat, mask: string, rest: string)
    requires i < j <= |s|
    ensures [s[i]] + (s[i + 1..j] + mask + rest) == s[i..j] + mask + rest
  {
    assert [s[i]] + s[i + 1..j] == s[i..j];
  }

  lemma MatchReplaced(p: Pattern, s: string, i: nat, d: char -> bool)
    requires i < |s| && Find(p, s, i, d).Some?
    ensures var e := Find(p, s, i, d).value;
            i < e <= |s| && Sub(p, s, i, d) == s[i..i] + MaskMatch(s[i..e], d) + Sub(p, s, e, d)
  {
    assert s[i..i] == "";
  }

  /** Up to the first match everything is copied, the match is masked, and the pass goes on behind it. */
  lemma {:induction false} FirstMatchMasked(p: Pattern, s: string, i: nat, j: nat, d: char -> bool)
    requires i <= j < |s| && Find(p, s, j, d).Some? && forall k: nat :: i <= k < j ==> Find(p, s, k, d).None?
    ensures var e := Find(p, s, j, d).value;
            j < e <= |s| && Sub(p, s, i, d) == s[i..j] + MaskMatch(s[j..e], d) + Sub(p, s, e, d)
    decreases j - i
  {
    if i < j {
      FirstMatchMasked(p, s, i + 1, j, d);
      CopiesOne(p, s, i, d);
      var e := Find(p, s, j, d).value;
      CopyBefore(s, i, j, MaskMatch(s[j..e], d), Sub(p, s, e, d));
    } else {
      MatchReplaced(p, s, i, d);
    }
  }

  /** A text without a match is copied. */
  lemma {:induction false} NoMatchCopied(p: Pattern, s: string, i: nat, d: char -> bool)
    requires i <= |s| && forall k: nat :: i <= k < |s| ==> Find(p, s, k, d).None?
    ensures Sub(p, s, i, d) == s[i..]
    decreases |s| - i
  {
    if i < |s| {
      NoMatchCopied(p, s, i + 1, d);
      assert [s[i]] + s[i + 1..] == s[i..];
    }
  }

  /** The three first digits, four stars and the four last digits of a value that has at least eight digits. */
  predicate MaskOf(mask: string, value: string, d: char -> bool) {
    var digits := DigitsOf(value, d);
    && |digits| >= 8 && |mask| == 11
    && mask[..3] == digits[..3] && mask[7..] == digits[|digits| - 4..]
    && forall k :: 3 <= k < 7 ==> mask[k] == '*'
  }

  lemma MaskIs(value: string, d: char -> bool)
    requires |DigitsOf(value, d)| >= 8
    ensures MaskOf(MaskMatch(value, d), value, d)
  {
  }

  lemma WholeReplaced(p: Pattern, s: string, d: char -> bool)
    requires s != "" && Find(p, s, 0, d) == Some(|s|)
    ensures Sub(p, s, 0, d) == MaskMatch(s, d)
  {
    MatchReplaced(p, s, 0, d);
    assert s[0..|s|] == s && s[0..0] == "";
    assert Sub(p, s, |s|, d) == "";
  }

  lemma WholeMasked(s: string, d: char -> bool)
    requires IsDigitClass(d) && s != "" && Find(International, s, 0, d) == Some(|s|)
    ensures Sub(International, s, 0, d) == MaskMatch(s, d) && MaskOf(MaskMatch(s, d), s, d)
  {
    WholeReplaced(International, s, d);
    InternationalDigits(s, 0, d);
    assert s[0..|s|] == s;
    MaskIs(s, d);
  }

  /**
  A text that is one international number, with no CN number in it, becomes its first three digits, four
  stars and its last four digits.
  */
  lemma NumberDesensitized(s: string, d: char -> bool)
    requires IsDigitClass(d) && InternationalAt(s, 0, |s|, d) && CnFree(s, false, d)
    ensures MaskOf(DesensitizeText(s, d), s, d)
  {
    NothingToHide(s, d);
    InternationalExact(s, 0, d);
    MatchShape(International, s, 0, d);
    WholeMasked(s, d);
  }

  lemma NothingToHide(s: string, d: char -> bool)
    requires CnFree(s, false, d)
    ensures Sub(Cn, s, 0, d) == s
  {
    forall k: nat | k < |s|
      ensures Find(Cn, s, k, d).None?
    {
      assert !CnAt(s, k, false, d);
    }
    NoMatchCopied(Cn, s, 0, d);
    assert s[0..] == s;
  }

  // ---------- CN numbers ----------

  /** Eleven characters: a 1, a digit from 3 to 9, and nine digits. */
  predicate CnNumber(m: string, d: char -> bool) {
    |m| == 11 && m[0] == '1' && '3' <= m[1] <= '9' && forall k :: 2 <= k < 11 ==> d(m[k])
  }

  /** In a text, such a number is hit exactly when no digit stands beside it. */
  lemma CnInText(a: string, m: string, b: string, d: char -> bool)
    requires |m| == 11
    ensures CnAt(a + m + b, |a|, false, d) <==>
              CnNumber(m, d) && !(a != "" && d(a[|a| - 1])) && !(b != "" && d(b[0]))
  {
    var t := a + m + b;
    assert forall k :: 0 <= k < 11 ==> t[|a| + k] == m[k];
    assert a != "" ==> t[|a| - 1] == a[|a| - 1];
    assert b != "" ==> t[|a| + 11] == b[0];
    if CnAt(t, |a|, false, d) {
      forall k | 2 <= k < 11
        ensures d(m[k])
      {
        assert d(t[|a| + k]);
      }
    }
  }

  lemma {:induction false} DigitsAtMost(value: string, d: char -> bool)
    ensures |DigitsOf(value, d)| <= |value|
  {
    if value != "" {
      DigitsAtMost(value[1..], d);
    }
  }

  lemma RestPlain(s: string, q: int, e: int, d: char -> bool)
    requires IsDigitClass(d) && RestAt(s, q, e, d)
    ensures 0 <= q && q + 8 <= e <= |s| && forall k :: q <= k < e ==> s[k] != '*' && s[k] != '+'
  {
    var start := if NumberAt(s, q, e, 8, 13, d) then q else q + 1;
    DigitsAtMost(s[start..e], d);
  }

  /** An international number has at least ten characters, none of them a star and none but the first a plus. */
  lemma InternationalPlain(s: string, i: int, e: int, d: char -> bool)
    requires IsDigitClass(d) && InternationalAt(s, i, e, d)
    ensures 0 <= i && i + 10 <= e <= |s| && forall k :: i <= k < e ==> s[k] != '*' && (k > i ==> s[k] != '+')
  {
    var q, n: nat :| PrefixAt(s, i, q) && CodeAt(s, q, n, e, d);
    CodePlain(s, q, n, e, d);
  }

  lemma CodePlain(s: string, q: int, n: nat, e: int, d: char -> bool)
    requires IsDigitClass(d) && CodeAt(s, q, n, e, d)
    ensures 0 <= q && q + 9 <= e <= |s| && forall k :: q <= k < e ==> s[k] != '*' && s[k] != '+'
  {
    RestPlain(s, q + 1 + n, e, d);
  }

  lemma BlockHasNone(t: string, d: char -> bool)
    requires IsDigitClass(d) && PhoneMask.IsBlock(t, d)
    ensures Sub(International, t, 0, d) == t
  {
    assert t[3] == '*';
    forall k: nat | k < |t|
      ensures Find(International, t, k, d).None?
    {
      InternationalExact(t, k, d);
      if e :| InternationalAt(t, k, e, d) {
        InternationalPlain(t, k, e, d);
      }
    }
    NoMatchCopied(International, t, 0, d);
    assert t[0..] == t;
  }

  /** A text that is one CN number keeps its first three and its last four digits, with four stars between them. */
  lemma CnDesensitized(m: string, d: char -> bool)
    requires IsDigitClass(d) && CnNumber(m, d)
    ensures MaskOf(DesensitizeText(m, d), m, d) && DigitsOf(m, d) == m
  {
    DigitsOfDigits(m, d);
    MatchShape(Cn, m, 0, d);
    assert m[0..11] == m;
    WholeReplaced(Cn, m, d);
    BlockHasNone(MaskMatch(m, d), d);
    MaskIs(m, d);
  }

  // ---------- No international number survives ----------

  /** Where each character of a pass's output comes from; -1 for those that a mask wrote. */
  function Origin(p: Pattern, s: string, i: nat, d: char -> bool): seq<int>
    requires i <= |s|
    decreases |s| - i
  {
    if i == |s| then []
    else
      var end := Find(p, s, i, d);
      if end.Some? then Masked(|MaskMatch(s[i..end.value], d)|) + Origin(p, s, end.value, d)
      else [i] + Origin(p, s, i + 1, d)
  }

  function Masked(n: nat): (r: seq<int>)
    ensures |r| == n && forall k :: 0 <= k < n ==> r[k] == -1
  {
    seq(n, _ => -1)
  }

  /** What one position of the output says about the input. */
  predicate Tracked(s: string, out: string, origin: seq<int>, k: int) {
    0 <= k < |origin| == |out| && origin[k] >= 0 ==> origin[k] < |s| && out[k] == s[origin[k]]
  }

  /** Copied characters that stand together stood together; beside a mask there is the edge of a digit run. */
  predicate Adjacent(out: string, origin: seq<int>, k: int, d: char -> bool) {
    0 < k < |origin| == |out| ==>
      && (origin[k - 1] >= 0 && origin[k] >= 0 ==> origin[k] == origin[k - 1] + 1)
      && (origin[k - 1] >= 0 && origin[k] < 0 ==> d(out[k]))
      && (origin[k - 1] < 0 && origin[k] >= 0 ==> d(out[k - 1]))
  }

  /** The pass from `i` on: its first character comes from `i` unless a mask wrote it, its last from the end. */
  ghost predicate Tracks(p: Pattern, s: string, i: nat, out: string, origin: seq<int>, d: char -> bool) {
    && |origin| == |out|
    && (forall k :: Tracked(s, out, origin, k))
    && (forall k :: Adjacent(out, origin, k, d))
    && (forall k :: 0 <= k < |origin| && origin[k] >= 0 ==> Unmatched(p, s, origin[k], d))
    && (origin != [] ==> if origin[0] >= 0 then origin[0] == i else d(out[0]))
    && (origin != [] ==> if origin[|origin| - 1] >= 0 then origin[|origin| - 1] == |s| - 1 else d(out[|out| - 1]))
    && (origin == [] ==> i == |s|)
  }

  predicate Unmatched(p: Pattern, s: string, i: int, d: char -> bool) {
    0 <= i < |s| && Find(p, s, i, d).None?
  }

  lemma TracksCopy(p: Pattern, s: string, i: nat, rest: string, origin: seq<int>, d: char -> bool)
    requires i < |s| && Find(p, s, i, d).None? && Tracks(p, s, i + 1, rest, origin, d)
    ensures Tracks(p, s, i, [s[i]] + rest, [i] + origin, d)
  {
    var out, all := [s[i]] + rest, [i] + origin;
    forall k
      ensures Tracked(s, out, all, k) && Adjacent(out, all, k, d)
    {
      assert Tracked(s, rest, origin, k - 1) && Adjacent(rest, origin, k - 1, d);
    }
  }

  lemma TracksMask(p: Pattern, s: string, i: nat, e: nat, mask: string, rest: string, origin: seq<int>, d: char -> bool)
    requires PhoneMask.IsBlock(mask, d) && i < e <= |s| && Tracks(p, s, e, rest, origin, d)
    ensures Tracks(p, s, i, mask + rest, Masked(11) + origin, d)
  {
    var out, all := mask + rest, Masked(11) + origin;
    assert d(mask[0]) && d(mask[10]);
    forall k
      ensures Tracked(s, out, all, k) && Adjacent(out, all, k, d)
    {
      assert Tracked(s, rest, origin, k - 11) && Adjacent(rest, origin, k - 11, d);
    }
  }

  lemma PassMatch(p: Pattern, s: string, i: nat, d: char -> bool)
    requires IsDigitClass(d) && i < |s| && Find(p, s, i, d).Some?
    ensures var e := Find(p, s, i, d).value;
            && i < e <= |s| && PhoneMask.IsBlock(MaskMatch(s[i..e], d), d)
            && Sub(p, s, i, d) == MaskMatch(s[i..e], d) + Sub(p, s, e, d)
            && Origin(p, s, i, d) == Masked(11) + Origin(p, s, e, d)
  {
    MatchShape(p, s, i, d);
  }

  lemma PassCopy(p: Pattern, s: string, i: nat, d: char -> bool)
    requires i < |s| && Find(p, s, i, d).None?
    ensures Sub(p, s, i, d) == [s[i]] + Sub(p, s, i + 1, d) && Origin(p, s, i, d) == [i] + Origin(p, s, i + 1, d)
  {
    CopiesOne(p, s, i, d);
  }

  /** The tracking of a pass, with the pass and its origins given as functions. */
  ghost predicate TracksAt(p: Pattern, s: string, f: nat -> string, g: nat -> seq<int>, i: nat, d: char -> bool) {
    i <= |s| && Tracks(p, s, i, f(i), g(i), d)
  }

  ghost predicate PassesAt(p: Pattern, s: string, f: nat -> string, g: nat -> seq<int>, i: nat, d: char -> bool) {
    i < |s| ==>
      var end := Find(p, s, i, d);
      if end.Some? then
        exists mask ::
          && i < end.value <= |s| && PhoneMask.IsBlock(mask, d)
          && f(i) == mask + f(end.value) && g(i) == Masked(11) + g(end.value)
      else f(i) == [s[i]] + f(i + 1) && g(i) == [i] + g(i + 1)
  }

  lemma {:induction false} AllTrack(p: Pattern, s: string, f: nat -> string, g: nat -> seq<int>, i: nat, d: char -> bool)
    requires i <= |s| && f(|s|) == "" && g(|s|) == [] && forall k: nat :: PassesAt(p, s, f, g, k, d)
    ensures TracksAt(p, s, f, g, i, d)
    decreases |s| - i
  {
    if i < |s| {
      assert PassesAt(p, s, f, g, i, d);
      var end := Find(p, s, i, d);
      if end.Some? {
        var mask :| PhoneMask.IsBlock(mask, d) && f(i) == mask + f(end.value);
        AllTrack(p, s, f, g, end.value, d);
        TracksMask(p, s, i, end.value, mask, f(end.value), g(end.value), d);
      } else {
        AllTrack(p, s, f, g, i + 1, d);
        TracksCopy(p, s, i, f(i + 1), g(i + 1), d);
      }
    }
  }

  function Origins(p: Pattern, s: string, d: char -> bool): nat -> seq<int> {
    (i: nat) => if i <= |s| then Origin(p, s, i, d) else []
  }

  lemma PassTracks(p: Pattern, s: string, d: char -> bool)
    requires IsDigitClass(d)
    ensures Tracks(p, s, 0, Sub(p, s, 0, d), Origin(p, s, 0, d), d)
  {
    var f, g := Output(p, s, d), Origins(p, s, d);
    forall k: nat
      ensures PassesAt(p, s, f, g, k, d)
    {
      if k < |s| {
        if Find(p, s, k, d).Some? { PassMatch(p, s, k, d); } else { PassCopy(p, s, k, d); }
      }
    }
    AllTrack(p, s, f, g, 0, d);
    assert TracksAt(p, s, f, g, 0, d);
  }

  // ---------- A number that is moved ----------

  /** The characters of `u` from `a` to `b` are those of `s` from `o` on. */
  predicate Same(u: string, a: int, b: int, s: string, o: int) {
    0 <= a <= b <= |u| && 0 <= o && o + (b - a) <= |s| && forall k :: a <= k < b ==> u[k] == s[o + (k - a)]
  }

  lemma GroupedMoves(u: string, a: int, b: int, s: string, o: int, q: int, d: char -> bool)
    requires Same(u, a, b, s, o) && a <= q < b && Grouped(u, q, b, d)
    ensures Grouped(s, o + (q - a), o + (b - a), d)
  {
    var m := o + (q - a);
    forall k | m <= k < o + (b - a)
      ensures s[k] == u[k - m + q] && (d(s[k]) || IsSeparator(s, k)) && (IsSeparator(s, k) <==> IsSeparator(u, k - m + q))
    {
    }
  }

  lemma DigitsMove(u: string, a: int, b: int, s: string, o: int, q: int, d: char -> bool)
    requires Same(u, a, b, s, o) && a <= q < b
    ensures Digits(s, o + (q - a), o + (b - a), d) == Digits(u, q, b, d)
  {
    assert u[q..b] == s[o + (q - a)..o + (b - a)];
  }

  lemma NumberMoves(u: string, a: int, b: int, s: string, o: int, q: int, d: char -> bool)
    requires Same(u, a, b, s, o) && a <= q < b && NumberAt(u, q, b, 8, 13, d) && !DigitAt(s, o + (b - a), d)
    ensures NumberAt(s, o + (q - a), o + (b - a), 8, 13, d)
  {
    GroupedMoves(u, a, b, s, o, q, d);
    DigitsMove(u, a, b, s, o, q, d);
  }

  lemma RestMoves(u: string, a: int, b: int, s: string, o: int, q: int, d: char -> bool)
    requires Same(u, a, b, s, o) && a <= q < b && RestAt(u, q, b, d) && !DigitAt(s, o + (b - a), d)
    ensures RestAt(s, o + (q - a), o + (b - a), d)
  {
    if NumberAt(u, q, b, 8, 13, d) {
      NumberMoves(u, a, b, s, o, q, d);
    } else {
      NumberMoves(u, a, b, s, o, q + 1, d);
      assert s[o + (q - a)] == u[q];
    }
  }

  lemma CodeMoves(u: string, a: int, b: int, s: string, o: int, q: int, n: nat, d: char -> bool)
    requires IsDigitClass(d) && Same(u, a, b, s, o) && a <= q && CodeAt(u, q, n, b, d) && !DigitAt(s, o + (b - a), d)
    ensures CodeAt(s, o + (q - a), n, o + (b - a), d)
  {
    RestPlain(u, q + 1 + n, b, d);
    RestMoves(u, a, b, s, o, q + 1 + n, d);
    var m := o + (q - a);
    assert s[m] == u[q];
    forall k | m + 1 <= k < m + 1 + n
      ensures d(s[k])
    {
      assert s[k] == u[k - m + q];
    }
  }

  /** A number that stands in one text stands in any other that holds its characters between non-digits. */
  lemma InternationalMoves(u: string, a: int, b: int, s: string, o: int, d: char -> bool)
    requires IsDigitClass(d) && InternationalAt(u, a, b, d) && Same(u, a, b, s, o)
    requires !DigitAt(s, o - 1, d) && !DigitAt(s, o + (b - a), d)
    ensures InternationalAt(s, o, o + (b - a), d)
  {
    InternationalPlain(u, a, b, d);
    var q, n: nat :| PrefixAt(u, a, q) && CodeAt(u, q, n, b, d);
    CodeMoves(u, a, b, s, o, q, n, d);
    assert s[o] == u[a] && s[o + 1] == u[a + 1];
    assert PrefixAt(s, o, o + (q - a));
  }

  /**
  Every international number that a desensitized text still shows has a character that a mask wrote: none of
  the text's own numbers is left.
  */
  lemma NoInternationalSurvives(t: string, a: int, b: int, d: char -> bool)
    requires IsDigitClass(d) && InternationalAt(Sub(International, t, 0, d), a, b, d)
    ensures |Origin(International, t, 0, d)| == |Sub(International, t, 0, d)|
    ensures 0 <= a < b <= |Sub(International, t, 0, d)|
    ensures exists k :: a <= k < b && Origin(International, t, 0, d)[k] < 0
  {
    var out, origin := Sub(International, t, 0, d), Origin(International, t, 0, d);
    PassTracks(International, t, d);
    InternationalPlain(out, a, b, d);
    if forall k :: a <= k < b ==> origin[k] >= 0 {
      var o := CopiedRun(International, t, out, origin, a, b, d);
      assert Unmatched(International, t, o, d);
      InternationalMoves(out, a, b, t, o, d);
      InternationalExact(t, o, d);
    }
  }

  /** A stretch of copied characters between non-digits was there, between non-digits. */
  lemma CopiedRun(p: Pattern, s: string, out: string, origin: seq<int>, a: int, b: int, d: char -> bool) returns (o: int)
    requires Tracks(p, s, 0, out, origin, d) && 0 <= a < b <= |out| && forall k :: a <= k < b ==> origin[k] >= 0
    requires !DigitAt(out, a - 1, d) && !DigitAt(out, b, d)
    ensures o == origin[a] && 0 <= o < |s| && Same(out, a, b, s, o)
    ensures !DigitAt(s, o - 1, d) && !DigitAt(s, o + (b - a), d)
  {
    o := origin[a];
    EdgeBefore(p, s, out, origin, a, d);
    Consecutive(p, s, out, origin, a, b - 1, d);
    EdgeBehind(p, s, out, origin, b, d);
    forall k | a <= k < b
      ensures out[k] == s[o + (k - a)]
    {
      Consecutive(p, s, out, origin, a, k, d);
      assert Tracked(s, out, origin, k);
    }
  }

  lemma EdgeBefore(p: Pattern, s: string, out: string, origin: seq<int>, a: int, d: char -> bool)
    requires Tracks(p, s, 0, out, origin, d) && 0 <= a < |out| && origin[a] >= 0 && !DigitAt(out, a - 1, d)
    ensures origin[a] < |s| && !DigitAt(s, origin[a] - 1, d)
  {
    assert Tracked(s, out, origin, a) && Adjacent(out, origin, a, d) && Tracked(s, out, origin, a - 1);
  }

  lemma EdgeBehind(p: Pattern, s: string, out: string, origin: seq<int>, b: int, d: char -> bool)
    requires Tracks(p, s, 0, out, origin, d) && 0 < b <= |out| && origin[b - 1] >= 0 && !DigitAt(out, b, d)
    ensures origin[b - 1] < |s| && !DigitAt(s, origin[b - 1] + 1, d)
  {
    assert Tracked(s, out, origin, b - 1) && Adjacent(out, origin, b, d) && Tracked(s, out, origin, b);
  }

  lemma {:induction false} Consecutive(p: Pattern, s: string, out: string, origin: seq<int>, a: int, k: int, d: char -> bool)
    requires Tracks(p, s, 0, out, origin, d) && 0 <= a <= k < |origin| && forall m :: a <= m <= k ==> origin[m] >= 0
    ensures origin[k] == origin[a] + (k - a)
    decreases k - a
  {
    if a < k {
      Consecutive(p, s, out, origin, a, k - 1, d);
      assert Adjacent(out, origin, k, d);
    }
  }

  // ---------- A mask can make a number ----------

  /** A plus with seven digits, too few for a number, a blank, and a number of thirteen digits, as in "+1234567 +8613812345678". */
  predicate TwoInARow(s: string) {
    && |s| == 23 && s[0] == '+' && s[8] == ' ' && s[9] == '+'
    && (forall k :: 1 <= k < 23 && k != 8 && k != 9 ==> '1' <= s[k] <= '9')
  }

  lemma TwoInARowCnFree(s: string, d: char -> bool)
    requires IsDigitClass(d) && TwoInARow(s)
    ensures CnFree(s, false, d)
  {
    forall i
      ensures !CnAt(s, i, false, d)
    {
      assert !d(s[0]) && !d(s[8]) && !d(s[9]);
      assert forall k :: 1 <= k < 23 && k != 8 && k != 9 ==> d(s[k]);
    }
  }

  lemma OnlyTheSecond(s: string, d: char -> bool)
    requires IsDigitClass(d) && TwoInARow(s)
    ensures (forall k: nat :: k < 9 ==> Find(International, s, k, d).None?) && Find(International, s, 9, d) == Some(23)
  {
    forall k: nat | k < 9
      ensures Find(International, s, k, d).None?
    {
      InternationalExact(s, k, d);
      if e :| InternationalAt(s, k, e, d) {
        InternationalPlain(s, k, e, d);
      }
    }
    AllDigits(s, 13, 23, d);
    assert CodeAt(s, 10, 2, 23, d) && PrefixAt(s, 9, 10);
    assert InternationalAt(s, 9, 23, d);
    InternationalExact(s, 9, d);
    MatchShape(International, s, 9, d);
  }

  lemma AllDigits(s: string, q: nat, e: nat, d: char -> bool)
    requires q < e <= |s| && forall k :: q <= k < e ==> d(s[k])
    ensures Grouped(s, q, e, d) && Digits(s, q, e, d) == e - q
  {
    DigitsOfDigits(s[q..e], d);
  }

  /** What the first digits become once the mask of the second number stands behind them. */
  lemma NumberBesideMask(out: string, d: char -> bool)
    requires IsDigitClass(d) && |out| == 20 && out[0] == '+' && out[8] == ' ' && out[12] == '*'
    requires (forall k :: 1 <= k < 8 ==> '1' <= out[k] <= '9') && forall k :: 9 <= k < 12 ==> d(out[k])
    ensures InternationalAt(out, 0, 12, d)
  {
    AllDigits(out, 3, 8, d);
    AllDigits(out, 9, 12, d);
    DigitsLeft(out, 3, 8, 12, d);
    DigitStep(out, 8, 12, d);
    assert NumberAt(out, 3, 12, 8, 13, d);
    assert AllDigitsAt(out, 2, 1, d) && CodeAt(out, 1, 1, 12, d) && PrefixAt(out, 0, 1);
  }

  /** Masking the second number makes one of the first digits, the blank and the digits that the mask leaves. */
  lemma MaskMakesNumber(s: string, d: char -> bool)
    requires IsDigitClass(d) && TwoInARow(s)
    ensures InternationalAt(DesensitizeText(s, d), 0, 12, d)
  {
    TwoInARowCnFree(s, d);
    NothingToHide(s, d);
    OnlyTheSecond(s, d);
    FirstMatchMasked(International, s, 0, 9, d);
    MatchShape(International, s, 9, d);
    var mask := MaskMatch(s[9..23], d);
    var out := DesensitizeText(s, d);
    assert Sub(International, s, 23, d) == "";
    assert out == s[0..9] + mask;
    NumberBesideMask(out, d);
  }
}
