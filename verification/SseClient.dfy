/**
The incremental reader of a server-sent event stream (section 9.2.6 of the WHATWG HTML standard, in the
simplified form the verification client reads): what it finds does not depend on how the stream is cut
into chunks, and exactly when that is so.
*/
module SseClient {
  import opened Text

  // ---------- One parse ----------

  /** Complete blocks, and the text after the last blank line. */
  datatype Blocks = Blocks(parts: seq<string>, remainder: string)

  /** One more character in front: it belongs to the first piece. */
  function Prepend(c: char, b: Blocks): Blocks {
    if b.parts == [] then Blocks([], [c] + b.remainder)
    else Blocks([[c] + b.parts[0]] + b.parts[1..], b.remainder)
  }

  /** `split("\n\n")`, the last piece kept apart. */
  function Split(s: string): Blocks
    decreases |s|
  {
    if |s| < 2 then Blocks([], s)
    else if s[0] == '\n' && s[1] == '\n' then
      var rest := Split(s[2..]);
      Blocks([""] + rest.parts, rest.remainder)
    else Prepend(s[0], Split(s[1..]))
  }

  /** `split("\n")`. */
  function Lines(s: string): (lines: seq<string>)
    ensures lines != []
  {
    if s == "" then [""]
    else
      var rest := Lines(s[1..]);
      if s[0] == '\n' then [""] + rest else [[s[0]] + rest[0]] + rest[1..]
  }

  function DataLines(lines: seq<string>): seq<string> {
    if lines == [] then []
    else (if "data:" <= lines[0] then [Strip(lines[0][5..])] else []) + DataLines(lines[1..])
  }

  /** The data of each block that has any. */
  function DataOf(parts: seq<string>): seq<string> {
    if parts == [] then []
    else
      var data := DataLines(Lines(parts[0]));
      (if data == [] then [] else [Join("\n", data)]) + DataOf(parts[1..])
  }

  /** What one parse makes of a buffer. */
  function Parse(buffer: string): Blocks {
    Split(ReplaceCrLf(buffer))
  }

  // ---------- Chunk by chunk ----------

  function Feed(state: Blocks, chunk: string): Blocks {
    var next := Parse(state.remainder + chunk);
    Blocks(state.parts + next.parts, next.remainder)
  }

  const START := Blocks([], "")

  function FeedAll(chunks: seq<string>): Blocks {
    if chunks == [] then START
    else Feed(FeedAll(chunks[..|chunks| - 1]), chunks[|chunks| - 1])
  }

  /** The receive loop: events in order of arrival, and the text carried over. Empty chunks are skipped. */
  method Receive(chunks: seq<string>) returns (events: seq<string>, buffer: string)
    ensures var state := FeedAll(NonEmpty(chunks)); events == DataOf(state.parts) && buffer == state.remainder
  {
    events, buffer := [], "";
    ghost var parts := [];
    for k := 0 to |chunks|
      invariant FeedAll(NonEmpty(chunks[..k])) == Blocks(parts, buffer)
      invariant events == DataOf(parts)
    {
      NonEmptyNext(chunks, k);
      if chunks[k] == "" {
        continue;
      }
      var next := Parse(buffer + chunks[k]);
      DataOfConcat(parts, next.parts);
      FeedNext(NonEmpty(chunks[..k]), chunks[k]);
      events := events + DataOf(next.parts);
      parts := parts + next.parts;
      buffer := next.remainder;
    }
    assert chunks[..|chunks|] == chunks;
  }

  function NonEmpty(chunks: seq<string>): (r: seq<string>)
    ensures forall k :: 0 <= k < |r| ==> r[k] != ""
  {
    if chunks == [] then []
    else NonEmpty(chunks[..|chunks| - 1]) + if chunks[|chunks| - 1] == "" then [] else [chunks[|chunks| - 1]]
  }

  lemma NonEmptyNext(chunks: seq<string>, k: nat)
    requires k < |chunks|
    ensures NonEmpty(chunks[..k + 1]) == if chunks[k] == "" then NonEmpty(chunks[..k]) else NonEmpty(chunks[..k]) + [chunks[k]]
  {
    assert chunks[..k + 1][..k] == chunks[..k];
  }

  lemma FeedNext(chunks: seq<string>, chunk: string)
    ensures FeedAll(chunks + [chunk]) == Feed(FeedAll(chunks), chunk)
  {
    assert (chunks + [chunk])[..|chunks|] == chunks;
  }

  lemma {:induction false} DataOfConcat(a: seq<string>, b: seq<string>)
    ensures DataOf(a + b) == DataOf(a) + DataOf(b)
  {
    if a == [] {
      assert a + b == b;
    } else {
      assert (a + b)[1..] == a[1..] + b;
      DataOfConcat(a[1..], b);
    }
  }

  // ---------- Line ends ----------

  predicate HasCrLf(s: string) {
    |s| >= 2 && ((s[0] == '\r' && s[1] == '\n') || HasCrLf(s[1..]))
  }

  /** A carriage return before a "\r\n": the one thing that normalizing twice treats differently. */
  predicate HasCrCrLf(s: string) {
    |s| >= 3 && ((s[0] == '\r' && s[1] == '\r' && s[2] == '\n') || HasCrCrLf(s[1..]))
  }

  predicate Seam(x: string, y: string) {
    x != "" && y != "" && x[|x| - 1] == '\r' && y[0] == '\n'
  }

  /** Normalizing distributes over any cut that is not inside a "\r\n". */
  lemma {:induction false} ReplaceConcat(x: string, y: string)
    requires !Seam(x, y)
    ensures ReplaceCrLf(x + y) == ReplaceCrLf(x) + ReplaceCrLf(y)
    decreases |x|
  {
    if x == "" {
      assert x + y == y;
    } else if |x| > 1 && x[0] == '\r' && x[1] == '\n' {
      assert (x + y)[2..] == x[2..] + y;
      ReplaceConcat(x[2..], y);
    } else {
      assert (x + y)[1..] == x[1..] + y;
      ReplaceConcat(x[1..], y);
    }
  }

  lemma {:induction false} ReplaceFixed(s: string)
    requires !HasCrLf(s)
    ensures ReplaceCrLf(s) == s
  {
    if s != "" {
      ReplaceFixed(s[1..]);
    }
  }

  /** The last character survives normalizing. */
  lemma {:induction false} ReplaceLast(s: string)
    requires s != ""
    ensures ReplaceCrLf(s) != "" && ReplaceCrLf(s)[|ReplaceCrLf(s)| - 1] == s[|s| - 1]
    decreases |s|
  {
    if |s| > 1 && s[0] == '\r' && s[1] == '\n' {
      if |s| > 2 { ReplaceLast(s[2..]); }
    } else if |s| > 1 {
      ReplaceLast(s[1..]);
    }
  }

  /** Normalized text holds a "\r\n" only where the original held "\r\r\n". */
  lemma {:induction false} ReplaceLeavesNone(s: string)
    requires !HasCrCrLf(s)
    ensures !HasCrLf(ReplaceCrLf(s))
    decreases |s|
  {
    if s == "" {
    } else if |s| > 1 && s[0] == '\r' && s[1] == '\n' {
      assert !HasCrCrLf(s[1..][1..]);
      ReplaceLeavesNone(s[2..]);
      assert ReplaceCrLf(s)[1..] == ReplaceCrLf(s[2..]);
    } else {
      ReplaceLeavesNone(s[1..]);
      assert ReplaceCrLf(s)[1..] == ReplaceCrLf(s[1..]);
    }
  }

  lemma {:induction false} HasCrLfPart(x: string, y: string)
    requires !HasCrLf(x + y)
    ensures !HasCrLf(x) && !HasCrLf(y)
  {
    if x != "" {
      assert (x + y)[1..] == x[1..] + y;
      HasCrLfPart(x[1..], y);
    } else {
      assert x + y == y;
    }
  }

  lemma {:induction false} HasCrCrLfPart(x: string, y: string)
    requires !HasCrCrLf(x + y)
    ensures !HasCrCrLf(x) && !HasCrCrLf(y)
  {
    if x != "" {
      assert (x + y)[1..] == x[1..] + y;
      HasCrCrLfPart(x[1..], y);
    } else {
      assert x + y == y;
    }
  }

  /** A "\r\n" that the cut goes through. */
  lemma ReplaceSeam(a: string, b: string)
    requires !HasCrCrLf(a)
    ensures ReplaceCrLf(ReplaceCrLf(a) + ("\r\n" + b)) == ReplaceCrLf(a + ("\r\n" + b))
  {
    ReplaceLeavesNone(a);
    ReplaceFixed(ReplaceCrLf(a));
    ReplaceConcat(ReplaceCrLf(a), "\r\n" + b);
    ReplaceConcat(a, "\r\n" + b);
  }

  /** Normalizing what was normalized, with more text, is normalizing all of it once. */
  lemma ReplaceAgain(a: string, b: string)
    requires !HasCrCrLf(a)
    ensures ReplaceCrLf(ReplaceCrLf(a) + b) == ReplaceCrLf(a + b)
  {
    if Seam(a, b) {
      var a1, b1 := a[..|a| - 1], b[1..];
      assert a == a1 + "\r" && b == "\n" + b1;
      HasCrCrLfPart(a1, "\r");
      ReplaceConcat(a1, "\r");
      ReplaceOne("\r");
      Regroup(ReplaceCrLf(a1), b1);
      Regroup(a1, b1);
      ReplaceSeam(a1, b1);
    } else {
      ReplaceLeavesNone(a);
      ReplaceFixed(ReplaceCrLf(a));
      if a != "" { ReplaceLast(a); }
      ReplaceConcat(ReplaceCrLf(a), b);
      ReplaceConcat(a, b);
    }
  }

  lemma ReplaceOne(s: string)
    requires |s| == 1
    ensures ReplaceCrLf(s) == s
  {
    assert s == [s[0]] + s[1..];
  }

  lemma Regroup(a: string, b: string)
    ensures (a + "\r") + ("\n" + b) == a + ("\r\n" + b)
  {
  }

  // ---------- Blocks ----------

  function Glued(parts: seq<string>): string {
    if parts == [] then "" else parts[0] + ("\n\n" + Glued(parts[1..]))
  }

  /** The text that a split came from. */
  lemma {:induction false} SplitGlue(s: string)
    ensures Glued(Split(s).parts) + Split(s).remainder == s
    decreases |s|
  {
    if |s| < 2 {
    } else if s[0] == '\n' && s[1] == '\n' {
      SplitGlue(s[2..]);
      GluedBlank(Split(s[2..]), s);
    } else {
      SplitGlue(s[1..]);
      GluedPrepend(s[0], Split(s[1..]));
      assert s == [s[0]] + s[1..];
    }
  }

  lemma GluedBlank(b: Blocks, s: string)
    requires |s| >= 2 && s[0] == '\n' && s[1] == '\n' && Glued(b.parts) + b.remainder == s[2..]
    ensures Glued([""] + b.parts) + b.remainder == s
  {
    GluedCons("", b.parts);
    assert ("" + ("\n\n" + Glued(b.parts))) + b.remainder == "\n\n" + (Glued(b.parts) + b.remainder);
    assert s == "\n\n" + s[2..];
  }

  lemma GluedCons(p: string, parts: seq<string>)
    ensures Glued([p] + parts) == p + ("\n\n" + Glued(parts))
  {
    assert ([p] + parts)[1..] == parts;
  }

  lemma GluedPrepend(c: char, b: Blocks)
    ensures Glued(Prepend(c, b).parts) + Prepend(c, b).remainder == [c] + (Glued(b.parts) + b.remainder)
  {
    if b.parts != [] {
      GluedCons([c] + b.parts[0], b.parts[1..]);
      var rest := "\n\n" + Glued(b.parts[1..]);
      assert ([c] + b.parts[0]) + rest == [c] + (b.parts[0] + rest);
    }
  }

  lemma {:induction false} GluedConcat(a: seq<string>, b: seq<string>)
    ensures Glued(a + b) == Glued(a) + Glued(b)
  {
    if a == [] {
      assert a + b == b;
    } else {
      assert a + b == [a[0]] + (a[1..] + b);
      GluedCons(a[0], a[1..] + b);
      GluedConcat(a[1..], b);
      assert a[0] + ("\n\n" + (Glued(a[1..]) + Glued(b))) == (a[0] + ("\n\n" + Glued(a[1..]))) + Glued(b);
    }
  }

  lemma {:induction false} NoPartsAllRemainder(s: string)
    requires Split(s).parts == []
    ensures Split(s).remainder == s
  {
    if |s| >= 2 {
      NoPartsAllRemainder(s[1..]);
      assert s == [s[0]] + s[1..];
    }
  }

  /** A split goes on from where it had got to. */
  lemma {:induction false} SplitContinues(s: string, y: string)
    ensures var a, b := Split(s), Split(Split(s).remainder + y);
            Split(s + y) == Blocks(a.parts + b.parts, b.remainder)
    decreases |s|
  {
    var a := Split(s);
    if a.parts == [] {
      NoPartsAllRemainder(s);
    } else if s[0] == '\n' && s[1] == '\n' {
      assert (s + y)[2..] == s[2..] + y;
      SplitContinues(s[2..], y);
      BlankMore(Split(s[2..]).parts, Split(a.remainder + y).parts);
    } else {
      assert (s + y)[1..] == s[1..] + y;
      SplitContinues(s[1..], y);
      PrependMore(s[0], Split(s[1..]), Split(a.remainder + y));
    }
  }

  lemma BlankMore(rest: seq<string>, more: seq<string>)
    ensures [""] + (rest + more) == ([""] + rest) + more
  {
  }

  lemma PrependMore(c: char, a: Blocks, b: Blocks)
    requires a.parts != []
    ensures Prepend(c, Blocks(a.parts + b.parts, b.remainder)) == Blocks(Prepend(c, a).parts + b.parts, b.remainder)
  {
    assert (a.parts + b.parts)[1..] == a.parts[1..] + b.parts;
  }

  /** The text of the complete blocks splits into just those. */
  lemma {:induction false} SplitFront(s: string)
    ensures var b := Split(s); |b.remainder| <= |s| && Split(s[..|s| - |b.remainder|]) == Blocks(b.parts, "")
    decreases |s|
  {
    var b := Split(s);
    if b.parts == [] {
      NoPartsAllRemainder(s);
    } else if s[0] == '\n' && s[1] == '\n' {
      SplitFront(s[2..]);
      assert s[..|s| - |b.remainder|][2..] == s[2..][..|s[2..]| - |b.remainder|];
    } else {
      SplitFront(s[1..]);
      assert s[..|s| - |b.remainder|][1..] == s[1..][..|s[1..]| - |b.remainder|];
    }
  }

  lemma {:induction false} GluedEnd(parts: seq<string>)
    ensures parts != [] ==> |Glued(parts)| >= 2 && Glued(parts)[|Glued(parts)| - 1] == '\n'
    ensures parts != [] ==> Glued(parts)[|Glued(parts)| - 2] == '\n'
  {
    if |parts| > 1 {
      GluedEnd(parts[1..]);
    }
  }

  /** One more chunk, when what came before holds no "\r\r\n". */
  lemma FeedStep(a: string, chunk: string)
    requires !HasCrCrLf(a)
    ensures Feed(Parse(a), chunk) == Parse(a + chunk)
  {
    var n := ReplaceCrLf(a);
    var b := Split(n);
    var g := Glued(b.parts);
    ReplaceAgain(a, chunk);
    ReplaceLeavesNone(a);
    SplitGlue(n);
    HasCrLfPart(g, b.remainder);
    SplitFront(n);
    assert n[..|n| - |b.remainder|] == g;
    FeedText(n, b, g, chunk);
  }

  lemma FeedText(n: string, b: Blocks, g: string, chunk: string)
    requires b == Split(n) && g == Glued(b.parts) && n == g + b.remainder && !HasCrLf(g) && Split(g) == Blocks(b.parts, "")
    ensures Feed(b, chunk) == Split(ReplaceCrLf(n + chunk))
  {
    var y := ReplaceCrLf(b.remainder + chunk);
    TextAfter(g, b.remainder, chunk);
    GluedEnd(b.parts);
    ReplaceAfter(g, b.remainder + chunk);
    SplitAfter(g, b.parts, y);
  }

  lemma TextAfter(g: string, r: string, chunk: string)
    ensures (g + r) + chunk == g + (r + chunk)
  {
  }

  lemma SplitAfter(g: string, parts: seq<string>, y: string)
    requires Split(g) == Blocks(parts, "")
    ensures Split(g + y) == Blocks(parts + Split(y).parts, Split(y).remainder)
  {
    SplitContinues(g, y);
    assert "" + y == y;
  }

  lemma ReplaceAfter(g: string, x: string)
    requires !HasCrLf(g) && (g == "" || g[|g| - 1] == '\n')
    ensures ReplaceCrLf(g + x) == g + ReplaceCrLf(x)
  {
    ReplaceConcat(g, x);
    ReplaceFixed(g);
  }

  // ---------- Chunk boundaries do not matter ----------

  lemma ConcatLast(chunks: seq<string>)
    requires chunks != []
    ensures Concat(chunks) == Concat(chunks[..|chunks| - 1]) + chunks[|chunks| - 1]
  {
    var n := |chunks| - 1;
    assert chunks == chunks[..n] + [chunks[n]];
    ConcatAppend(chunks[..n], [chunks[n]]);
    assert Concat([chunks[n]]) == chunks[n] + "" && chunks[n] + "" == chunks[n];
  }

  lemma FreeFront(before: string, last: string)
    requires last != "" && !HasCrCrLf((before + last)[..|before + last| - 1])
    ensures !HasCrCrLf(before) && (before != "" ==> !HasCrCrLf(before[..|before| - 1]))
  {
    assert (before + last)[..|before + last| - 1] == before + last[..|last| - 1];
    HasCrCrLfPart(before, last[..|last| - 1]);
    if before != "" {
      assert before == before[..|before| - 1] + [before[|before| - 1]];
      HasCrCrLfPart(before[..|before| - 1], [before[|before| - 1]]);
    }
  }

  lemma {:induction false} FeedAllIsParse(chunks: seq<string>)
    requires forall k :: 0 <= k < |chunks| ==> chunks[k] != ""
    requires chunks != [] ==> Concat(chunks) != "" && !HasCrCrLf(Concat(chunks)[..|Concat(chunks)| - 1])
    ensures FeedAll(chunks) == Parse(Concat(chunks))
  {
    if chunks != [] {
      var n := |chunks| - 1;
      ConcatLast(chunks);
      FreeFront(Concat(chunks[..n]), chunks[n]);
      if n > 0 { ConcatNonEmpty(chunks[..n]); }
      FeedAllIsParse(chunks[..n]);
      FeedStep(Concat(chunks[..n]), chunks[n]);
    }
  }

  lemma ConcatNonEmpty(chunks: seq<string>)
    requires chunks != [] && chunks[0] != ""
    ensures Concat(chunks) != ""
  {
  }

  /** The chunks of a stream: any cut into non-empty pieces. */
  predicate Cuts(chunks: seq<string>, stream: string) {
    Concat(chunks) == stream && forall k :: 0 <= k < |chunks| ==> chunks[k] != ""
  }

  /** A text with a "\r\r\n" splits right after the first one. */
  lemma {:induction false} FirstCrCrLf(s: string) returns (a: string, y: string)
    requires HasCrCrLf(s)
    ensures s == a + "\r\r\n" + y && !HasCrCrLf(a + "\r\r")
  {
    if s[0] == '\r' && s[1] == '\r' && s[2] == '\n' {
      a, y := "", s[3..];
      assert s == "\r\r\n" + y;
      assert "" + "\r\r" == "\r\r";
    } else {
      var b;
      b, y := FirstCrCrLf(s[1..]);
      a := [s[0]] + b;
      StillFirst(s, b, y);
    }
  }

  lemma StillFirst(s: string, b: string, y: string)
    requires |s| >= 3 && !(s[0] == '\r' && s[1] == '\r' && s[2] == '\n')
    requires s[1..] == b + "\r\r\n" + y && !HasCrCrLf(b + "\r\r")
    ensures s == ([s[0]] + b) + "\r\r\n" + y && !HasCrCrLf(([s[0]] + b) + "\r\r")
  {
    var t := ([s[0]] + b) + "\r\r";
    assert s == [s[0]] + s[1..];
    assert t[1..] == b + "\r\r";
    assert t == s[..|t|];
  }

  /** Normalizing shortens a text that holds a "\r\n". */
  lemma {:induction false} ReplaceShortens(s: string)
    requires HasCrLf(s)
    ensures |ReplaceCrLf(s)| < |s|
  {
    if !(s[0] == '\r' && s[1] == '\n') {
      ReplaceShortens(s[1..]);
    }
  }

  lemma {:induction false} HasCrLfEnd(x: string)
    ensures HasCrLf(x + "\r\n")
  {
    if x == "" {
      assert x + "\r\n" == "\r\n";
    } else {
      assert (x + "\r\n")[1..] == x[1..] + "\r\n";
      HasCrLfEnd(x[1..]);
    }
  }

  /** A normalized "\r\r\n" still ends in "\r\n". */
  lemma NormalizedCut(a: string) returns (m: string)
    ensures ReplaceCrLf(a + "\r\r\n") == m + "\r\n"
  {
    var front := a + "\r";
    assert a + "\r\r\n" == front + "\r\n";
    ReplaceConcat(front, "\r\n");
    ReplaceLast(front);
    assert ReplaceCrLf("\r\n") == "\n" by { assert "\r\n"[2..] == ""; }
    var n := ReplaceCrLf(front);
    m := n[..|n| - 1];
    assert n == m + "\r";
    assert (m + "\r") + "\n" == m + "\r\n";
  }

  /** A blank line does not end in "\r\n", so that stays in the remainder. */
  lemma RemainderKeepsCrLf(g: string, r: string, m: string)
    requires g + r == m + "\r\n"
    requires g == "" || (|g| >= 2 && g[|g| - 1] == '\n' && g[|g| - 2] == '\n')
    ensures HasCrLf(r)
  {
    var n := m + "\r\n";
    assert n[|n| - 1] == '\n' && n[|n| - 2] == '\r';
    if |r| >= 2 {
      assert r == n[|g|..] && r[|r| - 1] == '\n' && r[|r| - 2] == '\r';
      assert r == r[..|r| - 2] + "\r\n";
      HasCrLfEnd(r[..|r| - 2]);
    }
  }

  /** Cutting right after a "\r\r\n" gives fewer characters in all than one parse does. */
  lemma CutAfterLosesOne(a: string, y: string)
    requires y != ""
    ensures var x := a + "\r\r\n"; Feed(Parse(x), y) != Parse(x + y)
  {
    var x := a + "\r\r\n";
    var n := ReplaceCrLf(x);
    var b := Split(n);
    var m := NormalizedCut(a);
    SplitGlue(n);
    GluedEnd(b.parts);
    RemainderKeepsCrLf(Glued(b.parts), b.remainder, m);
    ReplaceShortens(b.remainder);
    assert b.remainder != "" && b.remainder[|b.remainder| - 1] == n[|n| - 1];
    NormalizedLength(b.remainder, y);
    NormalizedLength(x, y);
    Shorter(b, Parse(b.remainder + y), Parse(x + y));
  }

  lemma NormalizedLength(x: string, y: string)
    requires x != "" && x[|x| - 1] == '\n'
    ensures var b := Parse(x + y); |Glued(b.parts)| + |b.remainder| == |ReplaceCrLf(x)| + |ReplaceCrLf(y)|
  {
    ReplaceConcat(x, y);
    SplitGlue(ReplaceCrLf(x + y));
  }

  lemma Shorter(b: Blocks, next: Blocks, whole: Blocks)
    requires |Glued(b.parts)| + |Glued(next.parts)| + |next.remainder| < |Glued(whole.parts)| + |whole.remainder|
    ensures Blocks(b.parts + next.parts, next.remainder) != whole
  {
    GluedConcat(b.parts, next.parts);
  }

  lemma FeedTwo(x: string, y: string)
    ensures FeedAll([x, y]) == Feed(Parse(x), y)
  {
    assert [x, y][..1] == [x] && [x][..0] == [];
    assert FeedAll([x]) == Feed(START, x);
    assert "" + x == x && START.parts + Parse(x).parts == Parse(x).parts;
  }

  lemma CutInTwo(x: string, y: string)
    requires x != "" && y != ""
    ensures Cuts([x, y], x + y)
  {
    assert [x, y][1..] == [y] && [y][1..] == [];
    assert Concat([y]) == y + "" && y + "" == y;
  }

  /** A cut that goes wrong. */
  lemma BadCut(stream: string) returns (chunks: seq<string>)
    requires stream != "" && HasCrCrLf(stream[..|stream| - 1])
    ensures Cuts(chunks, stream) && FeedAll(chunks) != Parse(stream)
  {
    var a, y := FirstCrCrLf(stream[..|stream| - 1]);
    var x, rest := a + "\r\r\n", y + [stream[|stream| - 1]];
    assert stream == x + rest;
    chunks := [x, rest];
    CutInTwo(x, rest);
    FeedTwo(x, rest);
    CutAfterLosesOne(a, rest);
  }

  /**
  Every cut of a stream gives the same blocks and the same carried-over text as one parse of the whole,
  if and only if the stream holds no "\r\r\n" with more text after it.
  */
  lemma ChunkingExact(stream: string)
    requires stream != ""
    ensures (forall chunks :: Cuts(chunks, stream) ==> FeedAll(chunks) == Parse(stream))
            <==> !HasCrCrLf(stream[..|stream| - 1])
  {
    if HasCrCrLf(stream[..|stream| - 1]) {
      var chunks := BadCut(stream);
    } else {
      forall chunks | Cuts(chunks, stream)
        ensures FeedAll(chunks) == Parse(stream)
      {
        FeedAllIsParse(chunks);
      }
    }
  }

  lemma {:induction false} ConcatSkipsEmpty(chunks: seq<string>)
    ensures Concat(NonEmpty(chunks)) == Concat(chunks)
  {
    if chunks != [] {
      var n := |chunks| - 1;
      ConcatSkipsEmpty(chunks[..n]);
      ConcatLast(chunks);
      if chunks[n] != "" {
        assert NonEmpty(chunks)[..|NonEmpty(chunks)| - 1] == NonEmpty(chunks[..n]);
        ConcatLast(NonEmpty(chunks));
      } else {
        assert NonEmpty(chunks[..n]) + [] == NonEmpty(chunks[..n]) && Concat(chunks[..n]) + "" == Concat(chunks[..n]);
      }
    }
  }

  /** So the events the client sees are those of the whole stream, wherever the chunks were cut. */
  method ReceiveStream(chunks: seq<string>) returns (events: seq<string>, buffer: string)
    requires var stream := Concat(chunks); stream != "" ==> !HasCrCrLf(stream[..|stream| - 1])
    ensures var whole := Parse(Concat(chunks)); events == DataOf(whole.parts) && buffer == whole.remainder
  {
    events, buffer := Receive(chunks);
    ConcatSkipsEmpty(chunks);
    if NonEmpty(chunks) != [] {
      ConcatNonEmpty(NonEmpty(chunks));
      FeedAllIsParse(NonEmpty(chunks));
    }
  }
}
