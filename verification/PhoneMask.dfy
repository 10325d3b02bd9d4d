/**
The built-in phone patterns of the relay and the substitution they drive. `d` is the class of characters
that `\d` matches; it contains '0'..'9' and, beyond what `IsDigitClass` says, is left open.
*/
module PhoneMask {
  import opened Options
  import opened Json
  import opened Relay

  ghost predicate IsDigitClass(d: char -> bool) {
    (forall c :: '0' <= c <= '9' ==> d(c)) && !d('*') && !d('+') && !d(' ') && !d('-')
  }

  predicate DigitAt(s: string, i: int, d: char -> bool) {
    0 <= i < |s| && d(s[i])
  }

  // ---------- The patterns ----------

  datatype Pattern = Cn | International

  /**
  `1[3-9]\d{9}` at position `i` with no digit on either side; `before` says whether a digit precedes the
  text itself.
  */
  predicate CnAt(t: string, i: int, before: bool, d: char -> bool) {
    && 0 <= i && i + 11 <= |t|
    && !(if i == 0 then before else d(t[i - 1]))
    && t[i] == '1' && '3' <= t[i + 1] <= '9'
    && (forall k :: i + 2 <= k < i + 11 ==> d(t[k]))
    && !DigitAt(t, i + 11, d)
  }

  predicate IsSeparator(s: string, i: int) {
    0 <= i < |s| && (s[i] == ' ' || s[i] == '-')
  }

  /** `(?:\d[ -]?){7,12}\d(?!\d)` from `q`, greedy, after `count` groups: the end of the match. */
  function MatchGroups(s: string, q: nat, count: nat, d: char -> bool): (r: Option<nat>)
    requires q <= |s|
    ensures r.Some? ==> q < r.value <= |s| && d(s[r.value - 1]) && !DigitAt(s, r.value, d)
    decreases |s| - q
  {
    if !DigitAt(s, q, d) then None
    else
      var withSeparator := if count < 12 && IsSeparator(s, q + 1) then MatchGroups(s, q + 2, count + 1, d) else None;
      if withSeparator.Some? then withSeparator
      else
        var without := if count < 12 then MatchGroups(s, q + 1, count + 1, d) else None;
        if without.Some? then without
        else if count >= 7 && !DigitAt(s, q + 1, d) then Some(q + 1)
        else None
  }

  /** `[ -]?` and the groups. */
  function MatchNumber(s: string, q: nat, d: char -> bool): (r: Option<nat>)
    requires q <= |s|
    ensures r.Some? ==> q < r.value <= |s| && d(s[r.value - 1]) && !DigitAt(s, r.value, d)
  {
    var after := if IsSeparator(s, q) then MatchGroups(s, q + 1, 0, d) else None;
    if after.Some? then after else MatchGroups(s, q, 0, d)
  }

  /** `\d{0,2}`, longest first, `n` at most, and the rest of the number. */
  function MatchCountry(s: string, q: nat, n: nat, d: char -> bool): (r: Option<nat>)
    requires q <= |s| && n <= 2
    ensures r.Some? ==> q < r.value <= |s| && d(s[r.value - 1]) && !DigitAt(s, r.value, d)
  {
    var r := if q + n <= |s| && forall k :: q <= k < q + n ==> d(s[k]) then MatchNumber(s, q + n, d) else None;
    if r.Some? then r
    else if n > 0 then MatchCountry(s, q, n - 1, d)
    else None
  }

  /** `(?<!\d)(?:\+|00)[1-9]\d{0,2}[ -]?(?:\d[ -]?){7,12}\d(?!\d)` at `i`. */
  function MatchInternational(s: string, i: nat, d: char -> bool): (r: Option<nat>)
    requires i < |s|
    ensures r.Some? ==> i < r.value <= |s| && d(s[r.value - 1]) && !DigitAt(s, r.value, d) && !DigitAt(s, i - 1, d)
  {
    var q := if s[i] == '+' then i + 1 else i + 2;
    if DigitAt(s, i - 1, d) then None
    else if s[i] != '+' && !("00" <= s[i..]) then None
    else if q >= |s| || !('1' <= s[q] <= '9') then None
    else MatchCountry(s, q + 1, 2, d)
  }

  /** The end of the match of a pattern that starts at `i`, if there is one. */
  function Find(p: Pattern, s: string, i: nat, d: char -> bool): Option<nat>
    requires i < |s|
  {
    match p
    case Cn => if CnAt(s, i, false, d) then Some(i + 11) else None
    case International => MatchInternational(s, i, d)
  }

  // ---------- Masking ----------

  /** `re.sub(r"\D", "", value)`. */
  function DigitsOf(value: string, d: char -> bool): (r: string)
    ensures forall i :: 0 <= i < |r| ==> d(r[i])
  {
    if value == "" then "" else (if d(value[0]) then [value[0]] else "") + DigitsOf(value[1..], d)
  }

  lemma {:induction false} DigitsOfSuffix(value: string, n: nat, d: char -> bool)
    requires n <= |value|
    ensures |DigitsOf(value, d)| >= |DigitsOf(value[n..], d)|
  {
    if n > 0 {
      DigitsOfSuffix(value[1..], n - 1, d);
      assert value[1..][n - 1..] == value[n..];
    }
  }

  lemma DigitAndRest(s: string, q: nat, m: nat, e: nat, d: char -> bool)
    requires q < m <= e <= |s| && d(s[q])
    ensures |DigitsOf(s[q..e], d)| >= 1 + |DigitsOf(s[m..e], d)|
  {
    var value := s[q..e];
    assert value[0] == s[q] && value[1..][m - q - 1..] == s[m..e];
    DigitsOfSuffix(value[1..], m - q - 1, d);
  }

  lemma {:induction false} DigitsOfDigits(value: string, d: char -> bool)
    requires forall i :: 0 <= i < |value| ==> d(value[i])
    ensures DigitsOf(value, d) == value
  {
    if value != "" {
      DigitsOfDigits(value[1..], d);
    }
  }

  function Stars(n: nat): (r: string)
    ensures |r| == n && forall i :: 0 <= i < n ==> r[i] == '*'
  {
    if n == 0 then "" else "*" + Stars(n - 1)
  }

  /** `_mask_phone_match`. */
  function MaskMatch(value: string, d: char -> bool): string {
    var digits := DigitsOf(value, d);
    if |digits| <= 7 then Stars(|value|) else digits[..3] + Stars(4) + digits[|digits| - 4..]
  }

  /** `pattern.sub(_mask_phone_match, s)`, from position `i` on. */
  function Sub(p: Pattern, s: string, i: nat, d: char -> bool): string
    requires i <= |s|
    decreases |s| - i
  {
    if i == |s| then ""
    else
      var end := Find(p, s, i, d);
      if end.Some? then MaskMatch(s[i..end.value], d) + Sub(p, s, end.value, d)
      else [s[i]] + Sub(p, s, i + 1, d)
  }

  /** `desensitize_text` with the built-in patterns. */
  function DesensitizeText(s: string, d: char -> bool): string {
    Sub(International, Sub(Cn, s, 0, d), 0, d)
  }

  // ---------- What a match and its mask look like ----------

  /** Three digits, four stars, four digits. */
  predicate IsBlock(b: string, d: char -> bool) {
    && |b| == 11
    && (forall i :: 0 <= i < 3 ==> d(b[i]))
    && (forall i :: 3 <= i < 7 ==> b[i] == '*')
    && (forall i :: 7 <= i < 11 ==> d(b[i]))
  }

  // ---------- An international match has at least eight digits ----------

  lemma SkipToDigits(s: string, q: nat, m: nat, e: nat, d: char -> bool)
    requires q <= m <= e <= |s|
    ensures |DigitsOf(s[q..e], d)| >= |DigitsOf(s[m..e], d)|
  {
    DigitsOfSuffix(s[q..e], m - q, d);
    assert s[q..e][m - q..] == s[m..e];
  }

  lemma {:induction false} GroupsDigits(s: string, q: nat, count: nat, d: char -> bool)
    requires q <= |s| && MatchGroups(s, q, count, d).Some?
    ensures |DigitsOf(s[q..MatchGroups(s, q, count, d).value], d)| >= 8 - count
    decreases |s| - q
  {
    var end := MatchGroups(s, q, count, d).value;
    if count < 12 && IsSeparator(s, q + 1) && MatchGroups(s, q + 2, count + 1, d).Some? {
      GroupsDigits(s, q + 2, count + 1, d);
      DigitAndRest(s, q, q + 2, end, d);
    } else if count < 12 && MatchGroups(s, q + 1, count + 1, d).Some? {
      GroupsDigits(s, q + 1, count + 1, d);
      DigitAndRest(s, q, q + 1, end, d);
    } else {
      DigitAndRest(s, q, q + 1, end, d);
    }
  }

  lemma NumberDigits(s: string, q: nat, d: char -> bool)
    requires q <= |s| && MatchNumber(s, q, d).Some?
    ensures |DigitsOf(s[q..MatchNumber(s, q, d).value], d)| >= 8
  {
    if IsSeparator(s, q) && MatchGroups(s, q + 1, 0, d).Some? {
      GroupsDigits(s, q + 1, 0, d);
      SkipToDigits(s, q, q + 1, MatchNumber(s, q, d).value, d);
    } else {
      GroupsDigits(s, q, 0, d);
    }
  }

  lemma {:induction false} CountryDigits(s: string, q: nat, n: nat, d: char -> bool)
    requires q <= |s| && n <= 2 && MatchCountry(s, q, n, d).Some?
    ensures |DigitsOf(s[q..MatchCountry(s, q, n, d).value], d)| >= 8
  {
    if q + n <= |s| && (forall k :: q <= k < q + n ==> d(s[k])) && MatchNumber(s, q + n, d).Some? {
      NumberDigits(s, q + n, d);
      SkipToDigits(s, q, q + n, MatchNumber(s, q + n, d).value, d);
    } else {
      CountryDigits(s, q, n - 1, d);
    }
  }

  lemma InternationalDigits(s: string, i: nat, d: char -> bool)
    requires i < |s| && MatchInternational(s, i, d).Some?
    ensures |DigitsOf(s[i..MatchInternational(s, i, d).value], d)| >= 8
  {
    var q := if s[i] == '+' then i + 1 else i + 2;
    CountryDigits(s, q + 1, 2, d);
    SkipToDigits(s, i, q + 1, MatchInternational(s, i, d).value, d);
  }

  /** A match starts and ends at the edge of a digit run, and its mask is a block: the all-stars case never arises. */
  lemma MatchShape(p: Pattern, s: string, i: nat, d: char -> bool)
    requires IsDigitClass(d) && i < |s| && Find(p, s, i, d).Some?
    ensures var end := Find(p, s, i, d).value;
            && i < end <= |s| && !DigitAt(s, i - 1, d) && DigitAt(s, end - 1, d) && !DigitAt(s, end, d)
            && IsBlock(MaskMatch(s[i..end], d), d)
  {
    var end := Find(p, s, i, d).value;
    if p == Cn {
      DigitsOfDigits(s[i..end], d);
    } else {
      InternationalDigits(s, i, d);
    }
  }

  /** Right after a digit nothing matches. */
  lemma NoMatchAfterDigit(p: Pattern, s: string, i: nat, d: char -> bool)
    requires i < |s| && DigitAt(s, i - 1, d)
    ensures Find(p, s, i, d).None?
  {
  }

  // ---------- No CN number is left ----------

  ghost predicate CnFree(t: string, before: bool, d: char -> bool) {
    forall i :: !CnAt(t, i, before, d)
  }

  /** A number beyond the front `b` of a text is one in the rest. */
  lemma CnAtShift(b: string, t: string, i: int, before: bool, d: char -> bool)
    requires b != "" && |b| <= i && CnAt(b + t, i, before, d)
    ensures CnAt(t, i - |b|, d(b[|b| - 1]), d)
  {
    var u := b + t;
    assert forall k :: 0 <= k < |t| ==> t[k] == u[k + |b|];
    assert u[|b| - 1] == b[|b| - 1];
  }

  lemma CnFreeCons(c: char, t: string, before: bool, d: char -> bool)
    requires CnFree(t, d(c), d) && !CnAt([c] + t, 0, before, d)
    ensures CnFree([c] + t, before, d)
  {
    forall i
      ensures !CnAt([c] + t, i, before, d)
    {
      if i > 0 && CnAt([c] + t, i, before, d) {
        CnAtShift([c], t, i, before, d);
      }
    }
  }

  lemma CnFreeBlock(b: string, t: string, d: char -> bool)
    requires IsDigitClass(d) && IsBlock(b, d) && CnFree(t, true, d) && !DigitAt(t, 0, d)
    ensures CnFree(b + t, false, d)
  {
    var u := b + t;
    forall i
      ensures !CnAt(u, i, false, d)
    {
      assert u[3] == '*' && (3 <= i < 7 ==> u[i] == '*') && (7 < i < 11 ==> d(u[i - 1])) && !DigitAt(u, 11, d);
      if i >= 11 && CnAt(u, i, false, d) {
        CnAtShift(b, t, i, false, d);
      }
    }
  }

  lemma CopiesOne(p: Pattern, s: string, i: nat, d: char -> bool)
    requires i < |s| && Find(p, s, i, d).None?
    ensures Sub(p, s, i, d) == [s[i]] + Sub(p, s, i + 1, d)
  {
  }

  predicate CopiesAt(s: string, f: nat -> string, k: nat) {
    k < |s| && f(k) == [s[k]] + f(k + 1)
  }

  lemma {:induction false} CopiesAll(s: string, f: nat -> string, i: nat, n: nat)
    requires i + n <= |s| && forall k: nat :: i <= k < i + n ==> CopiesAt(s, f, k)
    ensures f(i) == s[i..i + n] + f(i + n)
    decreases n
  {
    if n > 0 {
      assert CopiesAt(s, f, i);
      CopiesAll(s, f, i + 1, n - 1);
      ConsSlice(s, i, n, f(i + n));
    } else {
      assert s[i..i + n] == "";
    }
  }

  function Output(p: Pattern, s: string, d: char -> bool): nat -> string {
    (i: nat) => if i <= |s| then Sub(p, s, i, d) else ""
  }

  lemma OutputIs(p: Pattern, s: string, i: nat, d: char -> bool)
    requires i <= |s|
    ensures Output(p, s, d)(i) == Sub(p, s, i, d)
  {
  }

  lemma OutputCopies(p: Pattern, s: string, i: nat, d: char -> bool)
    requires i < |s| && Find(p, s, i, d).None?
    ensures CopiesAt(s, Output(p, s, d), i)
  {
    CopiesOne(p, s, i, d);
    OutputIs(p, s, i, d);
    OutputIs(p, s, i + 1, d);
  }

  /** Inside a digit run that no match starts, characters are copied. */
  lemma RunCopied(p: Pattern, s: string, i: nat, n: nat, d: char -> bool)
    requires i + n <= |s| && forall k :: i <= k < i + n ==> d(s[k])
    requires i < |s| ==> Find(p, s, i, d).None?
    ensures Sub(p, s, i, d) == s[i..i + n] + Sub(p, s, i + n, d)
  {
    var f := Output(p, s, d);
    forall k: nat | i <= k < i + n
      ensures CopiesAt(s, f, k)
    {
      if k > i { NoMatchAfterDigit(p, s, k, d); }
      OutputCopies(p, s, k, d);
    }
    CopiesAll(s, f, i, n);
    OutputIs(p, s, i, d);
    OutputIs(p, s, i + n, d);
  }

  lemma ConsSlice(s: string, i: nat, n: nat, rest: string)
    requires 0 < n && i + n <= |s|
    ensures [s[i]] + (s[i + 1..i + n] + rest) == s[i..i + n] + rest
  {
  }

  /** A run of digits that starts with a number is exactly as long as the number. */
  lemma RunIsNumber(r: string, x: string, before: bool, d: char -> bool)
    requires IsDigitClass(d) && (forall k :: 0 <= k < |r| ==> d(r[k])) && !DigitAt(x, 0, d) && CnAt(r + x, 0, before, d)
    ensures |r| == 11
  {
    var u := r + x;
    assert !DigitAt(u, |r|, d);
    assert d(u[0]) && d(u[1]);
  }

  /** After a digit run, what follows starts with a non-digit. */
  lemma EdgeCopied(p: Pattern, s: string, i: nat, d: char -> bool)
    requires i <= |s| && DigitAt(s, i - 1, d) && !DigitAt(s, i, d)
    ensures !DigitAt(Sub(p, s, i, d), 0, d)
  {
    if i < |s| {
      NoMatchAfterDigit(p, s, i, d);
    }
  }

  function RunEnd(s: string, i: nat, d: char -> bool): (e: nat)
    requires i <= |s|
    ensures i <= e <= |s| && (forall k :: i <= k < e ==> d(s[k])) && !DigitAt(s, e, d)
    decreases |s| - i
  {
    if DigitAt(s, i, d) then RunEnd(s, i + 1, d) else i
  }

  /** A digit run that shows as a number in the output is one in the input. */
  lemma RunShows(s: string, i: nat, e: nat, x: string, d: char -> bool)
    requires IsDigitClass(d) && i < e <= |s| && (forall k :: i <= k < e ==> d(s[k])) && !DigitAt(s, e, d)
    requires !DigitAt(x, 0, d) && CnAt(s[i..e] + x, 0, DigitAt(s, i - 1, d), d)
    ensures CnAt(s, i, false, d)
  {
    RunIsNumber(s[i..e], x, DigitAt(s, i - 1, d), d);
    assert forall k :: 0 <= k < e - i ==> (s[i..e] + x)[k] == s[i + k];
  }

  lemma FrontIsDigit(p: Pattern, s: string, i: nat, d: char -> bool)
    requires IsDigitClass(d) && i < |s| && Find(p, s, i, d).None?
    requires CnAt(Sub(p, s, i, d), 0, DigitAt(s, i - 1, d), d)
    ensures d(s[i])
  {
    CopiesOne(p, s, i, d);
    assert Sub(p, s, i, d)[0] == '1';
  }

  /** The run at `i` is copied to the output, and what follows it there starts with a non-digit. */
  lemma RunInOutput(p: Pattern, s: string, i: nat, d: char -> bool) returns (e: nat, rest: string)
    requires IsDigitClass(d) && i < |s| && d(s[i]) && Find(p, s, i, d).None?
    ensures i < e <= |s| && (forall k :: i <= k < e ==> d(s[k])) && !DigitAt(s, e, d)
    ensures Sub(p, s, i, d) == s[i..e] + rest && !DigitAt(rest, 0, d)
  {
    e := RunEnd(s, i, d);
    rest := Sub(p, s, e, d);
    RunCopied(p, s, i, e - i, d);
    EdgeCopied(p, s, e, d);
  }

  /** A number that shows at the front of the output was there in the input. */
  lemma FrontWasThere(p: Pattern, s: string, i: nat, d: char -> bool)
    requires IsDigitClass(d) && i < |s| && Find(p, s, i, d).None?
    requires CnAt(Sub(p, s, i, d), 0, DigitAt(s, i - 1, d), d)
    ensures CnAt(s, i, false, d)
  {
    FrontIsDigit(p, s, i, d);
    var e, rest := RunInOutput(p, s, i, d);
    RunShows(s, i, e, rest, d);
  }

  /** A pass that hits every number of its input leaves none in its output. */
  lemma {:induction false} PassLeavesNone(p: Pattern, s: string, i: nat, d: char -> bool)
    requires IsDigitClass(d) && i <= |s|
    requires forall j :: i <= j < |s| && CnAt(s, j, false, d) ==> Find(p, s, j, d).Some?
    ensures CnFree(Sub(p, s, i, d), DigitAt(s, i - 1, d), d)
    decreases |s| - i
  {
    if i < |s| {
      var end := Find(p, s, i, d);
      if end.Some? {
        MatchShape(p, s, i, d);
        PassLeavesNone(p, s, end.value, d);
        EdgeCopied(p, s, end.value, d);
        CnFreeBlock(MaskMatch(s[i..end.value], d), Sub(p, s, end.value, d), d);
      } else {
        PassLeavesNone(p, s, i + 1, d);
        if CnAt(Sub(p, s, i, d), 0, DigitAt(s, i - 1, d), d) {
          FrontWasThere(p, s, i, d);
        }
        CnFreeCons(s[i], Sub(p, s, i + 1, d), DigitAt(s, i - 1, d), d);
      }
    }
  }

  /** Desensitized text holds no CN phone number. */
  lemma NoCnNumberLeft(s: string, d: char -> bool)
    requires IsDigitClass(d)
    ensures CnFree(DesensitizeText(s, d), false, d)
  {
    PassLeavesNone(Cn, s, 0, d);
    PassLeavesNone(International, Sub(Cn, s, 0, d), 0, d);
  }

  // ---------- The CN pass alone ----------

  /** Position `k` is one of the four middle digits of a number. */
  ghost predicate Hidden(s: string, k: int, d: char -> bool) {
    exists j :: CnAt(s, j, false, d) && j + 3 <= k < j + 7
  }

  lemma MatchesApart(s: string, i: int, j: int, d: char -> bool)
    requires IsDigitClass(d) && CnAt(s, i, false, d) && i < j < i + 11
    ensures !CnAt(s, j, false, d)
  {
    assert d(s[i]) && d(s[i + 1]) && d(s[j - 1]);
  }

  lemma HiddenByFirst(s: string, i: nat, k: nat, d: char -> bool)
    requires IsDigitClass(d) && CnAt(s, i, false, d) && i <= k < i + 11
    requires forall j :: j < i && CnAt(s, j, false, d) ==> j + 11 <= i
    ensures Hidden(s, k, d) <==> i + 3 <= k < i + 7
  {
    if j :| CnAt(s, j, false, d) && j + 3 <= k < j + 7 {
      if j > i { MatchesApart(s, i, j, d); }
    }
  }

  lemma CnBlock(s: string, i: nat, d: char -> bool)
    requires IsDigitClass(d) && CnAt(s, i, false, d)
    ensures var b := MaskMatch(s[i..i + 11], d);
            |b| == 11 && forall k :: i <= k < i + 11 ==> b[k - i] == if i + 3 <= k < i + 7 then '*' else s[k]
  {
    DigitsOfDigits(s[i..i + 11], d);
  }

  /** The text from position `i` on, with the four middle digits of every number of `s` turned into stars. */
  ghost function Veiled(s: string, i: nat, d: char -> bool): (v: string)
    requires i <= |s|
    ensures |v| == |s| - i && forall k :: 0 <= k < |v| ==> v[k] == if Hidden(s, i + k, d) then '*' else s[i + k]
  {
    seq(|s| - i, k requires 0 <= k < |s| - i => if Hidden(s, i + k, d) then '*' else s[i + k])
  }

  lemma VeiledMatch(s: string, i: nat, d: char -> bool)
    requires IsDigitClass(d) && CnAt(s, i, false, d)
    requires forall j :: j < i && CnAt(s, j, false, d) ==> j + 11 <= i
    ensures Veiled(s, i, d) == MaskMatch(s[i..i + 11], d) + Veiled(s, i + 11, d)
  {
    var b := MaskMatch(s[i..i + 11], d);
    CnBlock(s, i, d);
    forall k | i <= k < i + 11
      ensures b[k - i] == if Hidden(s, k, d) then '*' else s[k]
    {
      HiddenByFirst(s, i, k, d);
    }
    forall k | 0 <= k < |s| - i
      ensures Veiled(s, i, d)[k] == (b + Veiled(s, i + 11, d))[k]
    {
      assert k < 11 ==> b[i + k - i] == if Hidden(s, i + k, d) then '*' else s[i + k];
    }
  }

  lemma {:induction false} CnPassFrom(s: string, i: nat, d: char -> bool)
    requires IsDigitClass(d) && i <= |s|
    requires forall j :: j < i && CnAt(s, j, false, d) ==> j + 11 <= i
    ensures Sub(Cn, s, i, d) == Veiled(s, i, d)
    decreases |s| - i
  {
    if i < |s| {
      if CnAt(s, i, false, d) {
        forall j | j < i + 11 && CnAt(s, j, false, d)
          ensures j + 11 <= i + 11
        {
          if j > i { MatchesApart(s, i, j, d); }
        }
        CnPassFrom(s, i + 11, d);
        VeiledMatch(s, i, d);
      } else {
        CnPassFrom(s, i + 1, d);
        assert !Hidden(s, i, d);
        assert Veiled(s, i, d) == [s[i]] + Veiled(s, i + 1, d);
      }
    }
  }

  /**
  The CN pass keeps the length, turns the four middle digits of every number into stars and leaves every
  other character alone.
  */
  lemma CnPassPointwise(s: string, d: char -> bool)
    requires IsDigitClass(d)
    ensures |Sub(Cn, s, 0, d)| == |s|
    ensures forall k :: 0 <= k < |s| ==> Sub(Cn, s, 0, d)[k] == if Hidden(s, k, d) then '*' else s[k]
  {
    CnPassFrom(s, 0, d);
    forall k | 0 <= k < |s|
      ensures Sub(Cn, s, 0, d)[k] == if Hidden(s, k, d) then '*' else s[k]
    {
      assert Veiled(s, 0, d)[k] == if Hidden(s, 0 + k, d) then '*' else s[0 + k];
    }
  }

  lemma CnPassIdempotent(s: string, d: char -> bool)
    requires IsDigitClass(d)
    ensures Sub(Cn, Sub(Cn, s, 0, d), 0, d) == Sub(Cn, s, 0, d)
  {
    var t := Sub(Cn, s, 0, d);
    PassLeavesNone(Cn, s, 0, d);
    CnPassPointwise(t, d);
    assert forall k :: !Hidden(t, k, d);
  }

  // ---------- Use as the relay's mask ----------

  /** The built-in patterns meet what the commutation of extraction and desensitizing asks of a mask. */
  lemma DesensitizeKeepsEmptiness(d: char -> bool)
    requires IsDigitClass(d)
    ensures KeepsEmptiness(s => DesensitizeText(s, d))
  {
    forall s
      ensures DesensitizeText(s, d) == "" <==> s == ""
    {
      SubKeepsEmptiness(Cn, s, d);
      SubKeepsEmptiness(International, Sub(Cn, s, 0, d), d);
    }
  }

  lemma SubKeepsEmptiness(p: Pattern, s: string, d: char -> bool)
    requires IsDigitClass(d)
    ensures Sub(p, s, 0, d) == "" <==> s == ""
  {
    if s != "" && Find(p, s, 0, d).Some? {
      MatchShape(p, s, 0, d);
    }
  }
}
