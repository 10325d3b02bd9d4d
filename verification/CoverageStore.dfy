/**
The training-conversation table as a store of mutable rows, with the operations that write to it: insert,
the coverage job with its batches, and covered-only cleanup. Each is proved against the declarative side
in Coverage.dfy. A row is addressed by its position in ascending id order.
*/
module CoverageStore {
  import opened Json
  import opened Coverage

  class Conversation {
    const id: int
    const conversationId: string
    const userId: string
    const apiKeyId: string
    const trajectory: seq<Json>
    const createdAt: int
    var coveredBy: string
    var analyzed: bool

    constructor (id: int, conversationId: string, userId: string, apiKeyId: string, trajectory: seq<Json>, createdAt: int)
      ensures View() == Row(id, conversationId, userId, apiKeyId, trajectory, createdAt, "", false)
    {
      this.id, this.conversationId, this.userId, this.apiKeyId := id, conversationId, userId, apiKeyId;
      this.trajectory, this.createdAt := trajectory, createdAt;
      coveredBy, analyzed := "", false;
    }

    function View(): Row
      reads this
    {
      Row(id, conversationId, userId, apiKeyId, trajectory, createdAt, coveredBy, analyzed)
    }
  }

  function Views(rows: seq<Conversation>): (t: Table)
    reads rows
  {
    seq(|rows|, i requires 0 <= i < |rows| reads rows => rows[i].View())
  }

  predicate Ascending(s: seq<int>) {
    forall i, j :: 0 <= i < j < |s| ==> s[i] < s[j]
  }

  function Elements(s: seq<int>): set<int> {
    set p | p in s
  }

  // ---------- Queries ----------

  /** The number of rows for which `f` holds. */
  function Count(t: Table, f: Row -> bool): nat {
    if t == [] then 0 else (if f(t[0]) then 1 else 0) + Count(t[1..], f)
  }

  lemma {:induction false} CountUpdate(t: Table, f: Row -> bool, p: nat, r: Row)
    requires p < |t|
    ensures Count(t[p := r], f) == Count(t, f) - (if f(t[p]) then 1 else 0) + (if f(r) then 1 else 0)
  {
    if p == 0 {
      assert t[p := r][1..] == t[1..];
    } else {
      assert t[p := r][1..] == t[1..][p - 1 := r];
      CountUpdate(t[1..], f, p - 1, r);
    }
  }

  lemma {:induction false} SameCount(t: Table, u: Table, f: Row -> bool)
    requires |t| == |u| && forall j :: 0 <= j < |t| ==> f(t[j]) == f(u[j])
    ensures Count(t, f) == Count(u, f)
  {
    if t != [] {
      SameCount(t[1..], u[1..], f);
    }
  }

  predicate IsAnalyzed(row: Row) {
    row.analyzed
  }

  predicate IsPendingAfter(t: Table, cursor: int, p: int) {
    0 <= p < |t| && !t[p].analyzed && t[p].id > cursor
  }

  /** The first `limit` pending rows after the cursor, from position `from` on, in id order. */
  function PendingFrom(t: Table, cursor: int, limit: nat, from: nat): (batch: seq<int>)
    requires from <= |t|
    ensures |batch| <= limit && Ascending(batch)
    ensures forall p :: p in batch ==> from <= p && IsPendingAfter(t, cursor, p)
    ensures forall p :: from <= p && IsPendingAfter(t, cursor, p) && p !in batch ==>
                          |batch| == limit && forall q :: q in batch ==> q < p
    decreases |t| - from
  {
    if from == |t| || limit == 0 then []
    else if IsPendingAfter(t, cursor, from) then
      var rest := PendingFrom(t, cursor, limit - 1, from + 1);
      assert forall i :: 0 <= i < |rest| ==> rest[i] in rest;
      [from] + rest
    else PendingFrom(t, cursor, limit, from + 1)
  }

  predicate IsCandidate(t: Table, p: int, c: int) {
    0 <= c < |t| && 0 <= p < |t| && t[c].id != t[p].id && !Covered(t[c]) && SameGroup(t[c], t[p]) && t[c].id < t[p].id
  }

  /** The candidate positions below `below`, in descending id order. */
  function Candidates(t: Table, p: int, below: nat): (found: seq<int>)
    requires below <= |t|
    ensures forall c :: c in found <==> c < below && IsCandidate(t, p, c)
    ensures forall i :: 0 <= i < |found| ==> 0 <= found[i] < |t|
    ensures forall i, j :: Falls(found, i, j)
  {
    if below == 0 then []
    else
      var rest := Candidates(t, p, below - 1);
      assert forall i :: 0 <= i < |rest| ==> rest[i] in rest;
      if IsCandidate(t, p, below - 1) then
        FallsOn(below - 1, rest);
        [below - 1] + rest
      else rest
  }

  lemma FallsOn(c: int, rest: seq<int>)
    requires (forall i, j :: Falls(rest, i, j)) && forall i :: 0 <= i < |rest| ==> rest[i] < c
    ensures forall i, j :: Falls([c] + rest, i, j)
  {
    var all := [c] + rest;
    forall i, j
      ensures Falls(all, i, j)
    {
      assert Falls(rest, i - 1, j - 1);
    }
  }

  predicate Falls(s: seq<int>, i: int, j: int) {
    0 <= i < j < |s| ==> s[i] > s[j]
  }

  predicate ListedAt(t: Table, p: int, cs: seq<int>, c: int) {
    c in cs <==> IsCandidate(t, p, c)
  }

  /** `cs` are the candidates of row `p`, in descending order. */
  ghost predicate Listed(t: Table, p: int, cs: seq<int>) {
    && (forall c :: ListedAt(t, p, cs, c))
    && (forall i :: 0 <= i < |cs| ==> 0 <= cs[i] < |t|)
    && (forall i, j :: Falls(cs, i, j))
  }

  lemma CandidatesListed(t: Table, p: int)
    ensures Listed(t, p, Candidates(t, p, |t|))
  {
    var cs := Candidates(t, p, |t|);
    forall c ensures ListedAt(t, p, cs, c) {
    }
  }

  // ---------- One visit extends the declarative result ----------

  lemma CoverersAfterVisit(t: Table, w: set<int>, p: int, j: int)
    requires WellFormed(t) && 0 <= p < |t|
    requires forall q :: q in w && 0 <= q < |t| && SameGroup(t[q], t[p]) ==> p < q
    ensures forall i :: LargestCoverer(t, w, i, j) ==> LargestCoverer(t, w + {p}, i, j)
    ensures forall i :: CanCover(t, w + {p}, i, j) <==> CanCover(t, w, i, j) || (i == p && CanCover(t, {p}, p, j))
  {
    forall i | LargestCoverer(t, w, i, j)
      ensures LargestCoverer(t, w + {p}, i, j)
    {
      forall k | CanCover(t, w + {p}, k, j)
        ensures k <= i
      {
        assert k == p || CanCover(t, w, k, j);
        assert CanCover(t, w, i, j);
      }
    }
  }

  /** Visiting a row that is covered, or too short to extend anything, changes nothing. */
  lemma VisitSkips(t: Table, w: set<int>, p: int, u: Table)
    requires WellFormed(t) && MarkedFrom(t, w, u) && 0 <= p < |t|
    requires forall q :: q in w && 0 <= q < |t| && SameGroup(t[q], t[p]) ==> p < q
    requires Covered(u[p]) || |u[p].trajectory| < 2
    ensures MarkedFrom(t, w + {p}, u)
  {
    forall j | 0 <= j < |t|
      ensures MarkedRow(t, w + {p}, j, u[j])
    {
      CoverersAfterVisit(t, w, p, j);
      assert MarkedRow(t, w, j, u[j]) && MarkedRow(t, w, p, u[p]);
      if !Covered(t[j]) && !Covered(u[j]) && CanCover(t, {p}, p, j) {
        var i :| LargestCoverer(t, w, i, p) && u[p].coveredBy == t[i].conversationId;
        ExtendsTransitive(t[i], t[p], t[j]);
        assert CanCover(t, w, i, j);
      }
    }
  }

  /** Row `j` after row `p` has marked every uncovered row that it extends. */
  function Marked(t: Table, p: nat, j: nat): Row
    requires p < |t| && j < |t|
  {
    if !Covered(t[j]) && Extends(t[p], t[j]) then t[j].(coveredBy := t[p].conversationId) else t[j]
  }

  /** `t` after `p` has looked at its candidates from position `from` upwards. */
  function MarkedAbove(t: Table, p: nat, from: nat): (u: Table)
    requires p < |t|
    ensures |u| == |t| && forall j :: 0 <= j < |t| ==> u[j] == if from <= j then Marked(t, p, j) else t[j]
  {
    seq(|t|, j requires 0 <= j < |t| => if from <= j then Marked(t, p, j) else t[j])
  }

  /** Where the first `k` turns of the candidate loop have reached. */
  function Reached(cs: seq<int>, k: nat): nat
    requires k <= |cs| && forall i :: 0 <= i < |cs| ==> 0 <= cs[i]
  {
    if k == |cs| then 0 else cs[k] + 1
  }

  /** Between two consecutive candidates nothing is marked. */
  lemma NothingBetween(t: Table, p: nat, cs: seq<int>, k: nat, j: int)
    requires p < |t| && Listed(t, p, cs) && k <= |cs|
    requires Reached(cs, k) <= j < if k == 0 then |t| else cs[k - 1]
    ensures !IsCandidate(t, p, j)
  {
    forall i | 0 <= i < |cs|
      ensures cs[i] != j
    {
      assert Falls(cs, k, i) && Falls(cs, i, k - 1);
    }
    assert j !in cs && ListedAt(t, p, cs, j);
  }

  lemma MarkedUpTo(t: Table, p: nat, cs: seq<int>, k: nat)
    requires p < |t| && Listed(t, p, cs) && k <= |cs|
    ensures MarkedAbove(t, p, if k == 0 then |t| else cs[k - 1]) == MarkedAbove(t, p, Reached(cs, k))
  {
    var last := if k == 0 then |t| else cs[k - 1];
    forall j | 0 <= j < |t|
      ensures MarkedAbove(t, p, last)[j] == MarkedAbove(t, p, Reached(cs, k))[j]
    {
      if Reached(cs, k) <= j < last {
        NothingBetween(t, p, cs, k, j);
      }
      assert Reached(cs, k) <= last by {
        if 0 < k < |cs| { assert Falls(cs, k - 1, k); }
      }
    }
  }

  lemma NothingMarked(t: Table, p: nat, cs: seq<int>)
    requires p < |t| && Listed(t, p, cs)
    ensures MarkedAbove(t, p, Reached(cs, 0)) == t
  {
    MarkedUpTo(t, p, cs, 0);
    assert MarkedAbove(t, p, |t|) == t;
  }

  /** The next candidate is still as the query saw it; the already-covered test never holds. */
  lemma CandidateStillOpen(t: Table, p: nat, cs: seq<int>, k: nat)
    requires WellFormed(t) && p < |t| && Listed(t, p, cs) && k < |cs|
    ensures 0 <= cs[k] < |t|
    ensures IsCandidate(MarkedAbove(t, p, cs[k] + 1), p, cs[k])
    ensures Marked(MarkedAbove(t, p, cs[k] + 1), p, cs[k]) == Marked(t, p, cs[k])
    ensures MarkedAbove(t, p, cs[k] + 1)[cs[k] := Marked(t, p, cs[k])] == MarkedAbove(t, p, cs[k])
  {
    assert cs[k] in cs && ListedAt(t, p, cs, cs[k]);
  }

  lemma VisitMarks(t: Table, w: set<int>, p: nat, u: Table, v: Table)
    requires WellFormed(t) && MarkedFrom(t, w, u) && p < |t| == |v|
    requires forall q :: q in w && 0 <= q < |t| && SameGroup(t[q], t[p]) ==> p < q
    requires !Covered(u[p]) && v == MarkedAbove(u, p, 0)
    ensures MarkedFrom(t, w + {p}, v)
  {
    forall j | 0 <= j < |t|
      ensures MarkedRow(t, w + {p}, j, v[j])
    {
      CoverersAfterVisit(t, w, p, j);
      assert MarkedRow(t, w, j, u[j]) && MarkedRow(t, w, p, u[p]);
      if !Covered(u[j]) && Extends(u[p], u[j]) {
        assert CanCover(t, w + {p}, p, j);
        assert LargestCoverer(t, w + {p}, p, j);
      }
    }
  }

  // ---------- Grouping a batch ----------

  type Key = (string, string)

  function KeyOf(row: Row): Key {
    (row.userId, row.apiKeyId)
  }

  /** The batch members with key `g`, in batch order. */
  function GroupOf(t: Table, batch: seq<int>, g: Key): (group: seq<int>)
    requires forall k :: 0 <= k < |batch| ==> 0 <= batch[k] < |t|
    ensures forall p :: p in group <==> p in batch && KeyOf(t[p]) == g
  {
    if batch == [] then []
    else
      var n := |batch| - 1;
      assert batch == batch[..n] + [batch[n]];
      GroupOf(t, batch[..n], g) + if KeyOf(t[batch[n]]) == g then [batch[n]] else []
  }

  lemma {:induction false} GroupAscends(t: Table, batch: seq<int>, g: Key)
    requires Ascending(batch) && forall k :: 0 <= k < |batch| ==> 0 <= batch[k] < |t|
    ensures Ascending(GroupOf(t, batch, g))
  {
    if batch != [] {
      var n := |batch| - 1;
      GroupAscends(t, batch[..n], g);
      var before := GroupOf(t, batch[..n], g);
      forall k | 0 <= k < |before|
        ensures before[k] < batch[n]
      {
        assert before[k] in before;
      }
    }
  }

  /** The rows of the keys handled so far. */
  function RowsOfKeys(t: Table, batch: seq<int>, keys: seq<Key>): set<int>
    requires forall k :: 0 <= k < |batch| ==> 0 <= batch[k] < |t|
  {
    set p | p in batch && KeyOf(t[p]) in keys
  }

  predicate Differ(keys: seq<Key>, i: int, j: int) {
    0 <= i < j < |keys| ==> keys[i] != keys[j]
  }

  predicate GroupAt(t: Table, batch: seq<int>, keys: seq<Key>, groups: map<Key, seq<int>>, g: Key)
    requires forall k :: 0 <= k < |batch| ==> 0 <= batch[k] < |t|
  {
    (g in keys <==> g in groups) && (if g in groups then groups[g] else []) == GroupOf(t, batch, g)
  }

  /** `groups` holds the groups of the batch, and `keys` its keys in order of first appearance. */
  ghost predicate Grouped(t: Table, batch: seq<int>, keys: seq<Key>, groups: map<Key, seq<int>>)
    requires forall k :: 0 <= k < |batch| ==> 0 <= batch[k] < |t|
  {
    && (forall i, j :: Differ(keys, i, j))
    && (forall g :: GroupAt(t, batch, keys, groups, g))
  }

  /** Every batch member's key is listed. */
  lemma KeysListed(t: Table, batch: seq<int>, keys: seq<Key>, groups: map<Key, seq<int>>, p: int)
    requires (forall k :: 0 <= k < |batch| ==> 0 <= batch[k] < |t|) && Grouped(t, batch, keys, groups) && p in batch
    ensures KeyOf(t[p]) in keys
  {
    assert GroupAt(t, batch, keys, groups, KeyOf(t[p]));
    assert p in GroupOf(t, batch, KeyOf(t[p]));
  }

  lemma AllRowsGrouped(t: Table, batch: seq<int>, keys: seq<Key>, groups: map<Key, seq<int>>)
    requires (forall k :: 0 <= k < |batch| ==> 0 <= batch[k] < |t|) && Grouped(t, batch, keys, groups)
    ensures RowsOfKeys(t, batch, keys) == Elements(batch)
  {
    forall p | p in batch
      ensures KeyOf(t[p]) in keys
    {
      KeysListed(t, batch, keys, groups, p);
    }
  }

  lemma GroupOfNext(t: Table, batch: seq<int>, p: int, g: Key)
    requires (forall k :: 0 <= k < |batch| ==> 0 <= batch[k] < |t|) && 0 <= p < |t|
    ensures GroupOf(t, batch + [p], g) == GroupOf(t, batch, g) + if KeyOf(t[p]) == g then [p] else []
  {
    assert (batch + [p])[..|batch|] == batch;
  }

  function KeysWith(keys: seq<Key>, groups: map<Key, seq<int>>, g: Key): seq<Key> {
    if g in groups then keys else keys + [g]
  }

  function GroupsWith(groups: map<Key, seq<int>>, g: Key, p: int): map<Key, seq<int>> {
    groups[g := (if g in groups then groups[g] else []) + [p]]
  }

  lemma GroupAtNext(t: Table, batch: seq<int>, p: int, keys: seq<Key>, groups: map<Key, seq<int>>, h: Key)
    requires (forall k :: 0 <= k < |batch| ==> 0 <= batch[k] < |t|) && 0 <= p < |t|
    requires GroupAt(t, batch, keys, groups, h) && GroupAt(t, batch, keys, groups, KeyOf(t[p]))
    ensures GroupAt(t, batch + [p], KeysWith(keys, groups, KeyOf(t[p])), GroupsWith(groups, KeyOf(t[p]), p), h)
  {
    GroupOfNext(t, batch, p, h);
  }

  lemma DifferNext(keys: seq<Key>, g: Key)
    requires (forall i, j :: Differ(keys, i, j)) && g !in keys
    ensures forall i, j :: Differ(keys + [g], i, j)
  {
    forall i, j ensures Differ(keys + [g], i, j) {
      assert Differ(keys, i, j);
    }
  }

  lemma GroupedNext(t: Table, batch: seq<int>, p: int, keys: seq<Key>, groups: map<Key, seq<int>>, g: Key)
    requires (forall k :: 0 <= k < |batch| ==> 0 <= batch[k] < |t|) && 0 <= p < |t| && Grouped(t, batch, keys, groups)
    requires g == KeyOf(t[p])
    ensures Grouped(t, batch + [p], KeysWith(keys, groups, g), GroupsWith(groups, g, p))
  {
    assert GroupAt(t, batch, keys, groups, g);
    if g !in groups { DifferNext(keys, g); }
    forall h ensures GroupAt(t, batch + [p], KeysWith(keys, groups, g), GroupsWith(groups, g, p), h) {
      assert GroupAt(t, batch, keys, groups, h);
      GroupAtNext(t, batch, p, keys, groups, h);
    }
  }

  lemma TakeNext(s: seq<int>, k: nat)
    requires k < |s|
    ensures s[..k] + [s[k]] == s[..k + 1]
  {
  }

  lemma NothingGrouped(t: Table)
    ensures Grouped(t, [], [], map[])
  {
    forall g ensures GroupAt(t, [], [], map[], g) {
    }
  }

  /** The dictionary of groups: keys in order of first appearance, each with its members in batch order. */
  method GroupByKey(t: Table, batch: seq<int>) returns (keys: seq<Key>, groups: map<Key, seq<int>>)
    requires forall k :: 0 <= k < |batch| ==> 0 <= batch[k] < |t|
    ensures Grouped(t, batch, keys, groups)
  {
    keys, groups := [], map[];
    NothingGrouped(t);
    for k := 0 to |batch|
      invariant Grouped(t, batch[..k], keys, groups)
    {
      var g := KeyOf(t[batch[k]]);
      GroupedNext(t, batch[..k], batch[k], keys, groups, g);
      TakeNext(batch, k);
      if g !in groups {
        keys := keys + [g];
      }
      groups := groups[g := (if g in groups then groups[g] else []) + [batch[k]]];
    }
    assert batch[..|batch|] == batch;
  }

  lemma NextGroup(t: Table, batch: seq<int>, keys: seq<Key>, i: nat)
    requires forall k :: 0 <= k < |batch| ==> 0 <= batch[k] < |t|
    requires i < |keys| && forall i, j :: Differ(keys, i, j)
    ensures var group, w := GroupOf(t, batch, keys[i]), RowsOfKeys(t, batch, keys[..i]);
            && (forall k :: 0 <= k < |group| ==> 0 <= group[k] < |t|)
            && (forall q, k :: q in w && 0 <= q < |t| && 0 <= k < |group| ==> !SameGroup(t[q], t[group[k]]))
            && RowsOfKeys(t, batch, keys[..i + 1]) == w + Elements(group)
  {
    var group, w := GroupOf(t, batch, keys[i]), RowsOfKeys(t, batch, keys[..i]);
    assert keys[..i + 1] == keys[..i] + [keys[i]];
    forall k | 0 <= k < |group|
      ensures 0 <= group[k] < |t| && KeyOf(t[group[k]]) == keys[i]
    {
      assert group[k] in group;
    }
    forall q | q in w
      ensures KeyOf(t[q]) != keys[i]
    {
      var m :| 0 <= m < |keys[..i]| && keys[..i][m] == KeyOf(t[q]);
      assert Differ(keys, m, i);
    }
  }

  // ---------- Which rows a limited cleanup takes ----------

  /** Position `p` holds a covered row, and no covered row is older. */
  predicate OldestCovered(t: Table, p: int) {
    0 <= p < |t| && Covered(t[p]) && forall q :: 0 <= q < |t| && Covered(t[q]) ==> t[p].createdAt <= t[q].createdAt
  }

  /** The oldest covered row among the first `n`; the earliest of equally old ones; -1 when there is none. */
  function FindOldest(t: Table, n: nat): (p: int)
    requires n <= |t|
    ensures -1 <= p < n
    ensures p == -1 ==> forall q :: 0 <= q < n ==> !Covered(t[q])
    ensures p >= 0 ==> Covered(t[p]) && forall q :: 0 <= q < n && Covered(t[q]) ==> t[p].createdAt <= t[q].createdAt
  {
    if n == 0 then -1
    else
      var p := FindOldest(t, n - 1);
      if Covered(t[n - 1]) && (p == -1 || t[n - 1].createdAt < t[p].createdAt) then n - 1 else p
  }

  lemma {:induction false} CountNone(t: Table, f: Row -> bool)
    requires forall q :: 0 <= q < |t| ==> !f(t[q])
    ensures Count(t, f) == 0
  {
    if t != [] {
      CountNone(t[1..], f);
    }
  }

  lemma {:induction false} CountWithout(t: Table, p: nat, f: Row -> bool)
    requires p < |t|
    ensures Count(t, f) == Count(Without(t, p), f) + (if f(t[p]) then 1 else 0)
  {
    if p == 0 {
      assert Without(t, p) == t[1..];
    } else {
      assert Without(t, p)[1..] == Without(t[1..], p - 1);
      CountWithout(t[1..], p - 1, f);
    }
  }

  /** What is gone since `t0` is covered and no younger than any covered row that is left. */
  ghost predicate OldestGone(t0: Table, t: Table) {
    forall r, q :: r in t0 && r !in t && q in t && Covered(q) ==> Covered(r) && r.createdAt <= q.createdAt
  }

  lemma OldestGoneNext(t0: Table, t: Table, p: nat)
    requires OldestGone(t0, t) && OldestCovered(t, p)
    ensures OldestGone(t0, Without(t, p))
  {
    var u := Without(t, p);
    forall r, q | r in t0 && r !in u && q in u && Covered(q)
      ensures Covered(r) && r.createdAt <= q.createdAt
    {
      assert q in t;
      if r in t && r != t[p] {
        WithoutKeeps(t, p, r);
      }
    }
  }

  // ---------- Analyzing, restoring, deleting ----------

  /** `t` with the members of the batch set to analyzed. */
  function WithAnalyzed(t: Table, batch: seq<int>): (u: Table)
    requires forall k :: 0 <= k < |batch| ==> 0 <= batch[k] < |t|
    ensures |u| == |t| && forall j :: 0 <= j < |t| ==> u[j] == t[j].(analyzed := t[j].analyzed || j in batch)
  {
    seq(|t|, j requires 0 <= j < |t| => t[j].(analyzed := t[j].analyzed || j in batch))
  }

  lemma AnalyzedNext(t: Table, batch: seq<int>, k: nat)
    requires Ascending(batch) && k < |batch| && forall k :: 0 <= k < |batch| ==> 0 <= batch[k] < |t|
    ensures var u := WithAnalyzed(t, batch[..k]);
            WithAnalyzed(t, batch[..k + 1]) == u[batch[k] := u[batch[k]].(analyzed := true)] && u[batch[k]] == t[batch[k]]
  {
    assert batch[..k + 1] == batch[..k] + [batch[k]];
    assert batch[k] !in batch[..k];
  }

  lemma MarkedKeepsAnalyzed(t: Table, w: set<int>, u: Table)
    requires MarkedFrom(t, w, u)
    ensures forall j :: 0 <= j < |t| ==> u[j].analyzed == t[j].analyzed
    ensures Count(u, IsAnalyzed) == Count(t, IsAnalyzed)
  {
    forall j | 0 <= j < |t|
      ensures u[j].analyzed == t[j].analyzed
    {
      assert MarkedRow(t, w, j, u[j]);
    }
    SameCount(t, u, IsAnalyzed);
  }

  lemma MarksThenAnalyzes(t: Table, batch: seq<int>, u: Table)
    requires forall k :: 0 <= k < |batch| ==> 0 <= batch[k] < |t|
    requires MarkedFrom(t, Elements(batch), u)
    ensures BatchStep(t, Elements(batch), WithAnalyzed(u, batch))
  {
    var v := WithAnalyzed(u, batch);
    forall j | 0 <= j < |t|
      ensures MarkedRow(t, Elements(batch), j, v[j].(analyzed := t[j].analyzed)) && v[j].analyzed == (t[j].analyzed || j in batch)
    {
      assert MarkedRow(t, Elements(batch), j, u[j]);
      assert v[j].(analyzed := t[j].analyzed) == u[j];
    }
  }

  /** Everything up to the cursor is analyzed, and nothing else became analyzed since `t0`. */
  ghost predicate CursorMeans(t0: Table, t: Table, cursor: int) {
    && |t| == |t0|
    && (forall j :: 0 <= j < |t| && t[j].id <= cursor ==> t[j].analyzed)
    && (forall j :: 0 <= j < |t| && t[j].analyzed && !t0[j].analyzed ==> t[j].id <= cursor)
  }

  predicate AllAnalyzedAfter(t: Table, cursor: int) {
    forall j :: 0 <= j < |t| && t[j].id > cursor ==> t[j].analyzed
  }

  lemma NothingPending(t: Table, cursor: int, limit: nat)
    requires limit > 0 && PendingFrom(t, cursor, limit, 0) == []
    ensures AllAnalyzedAfter(t, cursor)
  {
    forall j | 0 <= j < |t| && t[j].id > cursor
      ensures t[j].analyzed
    {
      assert !IsPendingAfter(t, cursor, j);
    }
  }

  lemma BatchIsPending(t: Table, cursor: int, limit: nat, batch: seq<int>)
    requires batch == PendingFrom(t, cursor, limit, 0)
    ensures forall k :: 0 <= k < |batch| ==> 0 <= batch[k] < |t| && !t[batch[k]].analyzed && t[batch[k]].id > cursor
  {
    forall k | 0 <= k < |batch|
      ensures IsPendingAfter(t, cursor, batch[k])
    {
      assert batch[k] in batch;
    }
  }

  lemma BatchAdvancesCursor(t0: Table, t: Table, cursor: int, limit: nat, batch: seq<int>, u: Table)
    requires WellFormed(t) && CursorMeans(t0, t, cursor)
    requires batch == PendingFrom(t, cursor, limit, 0) && batch != [] && BatchStep(t, Elements(batch), u)
    ensures 0 <= batch[|batch| - 1] < |t| && cursor < t[batch[|batch| - 1]].id
    ensures CursorMeans(t0, u, t[batch[|batch| - 1]].id)
  {
    BatchIsPending(t, cursor, limit, batch);
    var last := batch[|batch| - 1];
    forall j | 0 <= j < |t|
      ensures u[j].id == t[j].id
      ensures u[j].id <= t[last].id ==> u[j].analyzed
      ensures u[j].analyzed && !t0[j].analyzed ==> u[j].id <= t[last].id
    {
      assert MarkedRow(t, Elements(batch), j, u[j].(analyzed := t[j].analyzed));
      assert InOrder(t, last, j) && InOrder(t, j, last);
      if IsPendingAfter(t, cursor, j) && j !in batch {
        assert last in batch;
      }
      if j in batch && j != last {
        var k :| 0 <= k < |batch| && batch[k] == j;
        assert batch[k] < last;
      }
    }
  }

  /** What the session of one iteration comes to, from table `t` to `u`. */
  ghost predicate SessionOutcome(t0: Table, t: Table, u: Table, cursor: int, limit: nat, fault: Fault, end: SessionEnd,
                                 taken: nat, marked: nat, next: int) {
    match end
    case Drained => u == t && fault != AtSelect && AllAnalyzedAfter(t, cursor) && taken == 0 && marked == 0 && next == cursor
    case Raised =>
      && u == t
      && (fault == AtSelect || (fault != NoFault && !AllAnalyzedAfter(t, cursor)))
      && (if fault == AtSelect then taken == 0 && next == cursor else taken > 0)
      && (fault != AtCommit ==> marked == 0)
    case Committed => fault == NoFault && CommitOutcome(t0, t, u, cursor, limit, taken, marked, next)
  }

  ghost predicate CommitOutcome(t0: Table, t: Table, u: Table, cursor: int, limit: nat, taken: nat, marked: nat, next: int) {
    && SomeBatch(t, u) && 0 < taken <= limit && cursor < next && CursorMeans(t0, u, next)
    && Count(u, Covered) == Count(t, Covered) + marked
    && Count(u, IsAnalyzed) == Count(t, IsAnalyzed) + taken
    && (taken < limit ==> AllAnalyzedAfter(u, next))
  }

  lemma BatchCommits(t0: Table, t: Table, u: Table, cursor: int, limit: nat, batch: seq<int>, marked: nat)
    requires WellFormed(t) && CursorMeans(t0, t, cursor)
    requires batch == PendingFrom(t, cursor, limit, 0) && batch != [] && BatchStep(t, Elements(batch), u)
    requires Count(u, Covered) == Count(t, Covered) + marked && Count(u, IsAnalyzed) == Count(t, IsAnalyzed) + |batch|
    ensures 0 <= batch[|batch| - 1] < |t|
    ensures CommitOutcome(t0, t, u, cursor, limit, |batch|, marked, t[batch[|batch| - 1]].id)
  {
    BatchAdvancesCursor(t0, t, cursor, limit, batch, u);
    if |batch| < limit {
      ShortBatchTakesAll(t, cursor, limit, batch, u);
    }
  }

  /** A batch smaller than the limit leaves nothing pending. */
  lemma ShortBatchTakesAll(t: Table, cursor: int, limit: nat, batch: seq<int>, u: Table)
    requires batch == PendingFrom(t, cursor, limit, 0) && |batch| < limit && BatchStep(t, Elements(batch), u)
    ensures AllAnalyzedAfter(u, cursor)
  {
    forall j | 0 <= j < |u| && u[j].id > cursor
      ensures u[j].analyzed
    {
      assert MarkedRow(t, Elements(batch), j, u[j].(analyzed := t[j].analyzed));
      assert IsPendingAfter(t, cursor, j) ==> j in batch;
    }
  }

  lemma RestoreNext(saved: Table, t: Table, k: nat)
    requires |saved| == |t| && k < |t|
    ensures (saved[..k] + t[k..])[k] == t[k]
    ensures (saved[..k] + t[k..])[k := saved[k]] == saved[..k + 1] + t[k + 1..]
  {
  }

  // ---------- The store ----------

  datatype Config = Config(maxSeconds: real, maxRecords: int, batchSize: int)

  /** What the job row says when an iteration reads it. */
  datatype JobSignal = Running | Stopping | Missing

  /** Where an iteration raises, if it does: its session is then rolled back. */
  datatype Fault = NoFault | AtSelect | AtMark | AtCommit

  /**
  What a job meets: successive readings of the monotonic clock, and for each iteration what the job row says
  and where its session raises.
  */
  datatype World = World(clock: nat -> real, signal: nat -> JobSignal, fault: nat -> Fault)

  datatype SessionEnd = Drained | Committed | Raised

  datatype JobStatus = Completed | Limited | TimedOut | Stopped | Failed

  datatype JobResult = JobResult(status: JobStatus, processed: int, marked: int, cursor: int)

  /** `ids` holds the ids of the covered rows of `group`, and only ids of covered rows. */
  ghost predicate TracksCovered(t: Table, ids: set<int>, group: seq<int>) {
    && (forall c :: 0 <= c < |t| && t[c].id in ids ==> Covered(t[c]))
    && (forall q :: q in group && 0 <= q < |t| && Covered(t[q]) ==> t[q].id in ids)
  }

  /** Going down a group, everything of the group visited so far lies above the next row. */
  lemma NextInGroup(t: Table, w0: set<int>, group: seq<int>, k: nat)
    requires k < |group| && Ascending(group) && forall k :: 0 <= k < |group| ==> 0 <= group[k] < |t|
    requires forall q, k :: q in w0 && 0 <= q < |t| && 0 <= k < |group| ==> !SameGroup(t[q], t[group[k]])
    ensures w0 + Elements(group[k..]) == w0 + Elements(group[k + 1..]) + {group[k]}
    ensures forall q :: q in w0 + Elements(group[k + 1..]) && 0 <= q < |t| && SameGroup(t[q], t[group[k]]) ==> group[k] < q
  {
    assert group[k..] == [group[k]] + group[k + 1..];
  }

  function CoveredIds(t: Table, group: seq<int>): set<int>
    requires forall k :: 0 <= k < |group| ==> 0 <= group[k] < |t|
  {
    set k | 0 <= k < |group| && Covered(t[group[k]]) :: t[group[k]].id
  }

  lemma CoveredIdsTrack(t: Table, group: seq<int>)
    requires WellFormed(t) && forall k :: 0 <= k < |group| ==> 0 <= group[k] < |t|
    ensures TracksCovered(t, CoveredIds(t, group), group)
  {
    forall c | 0 <= c < |t| && t[c].id in CoveredIds(t, group)
      ensures Covered(t[c])
    {
      var k :| 0 <= k < |group| && Covered(t[group[k]]) && t[group[k]].id == t[c].id;
      assert InOrder(t, c, group[k]) && InOrder(t, group[k], c);
    }
  }

  lemma TracksNewlyCovered(t: Table, ids: set<int>, group: seq<int>, c: nat, r: Row)
    requires WellFormed(t) && TracksCovered(t, ids, group) && c < |t| && r.id == t[c].id && Covered(r)
    ensures TracksCovered(t[c := r], ids + {r.id}, group)
  {
    forall q | 0 <= q < |t| && t[q].id == r.id
      ensures q == c
    {
      assert InOrder(t, q, c) && InOrder(t, c, q);
    }
  }

  ghost predicate SomeBatch(t: Table, u: Table) {
    exists batch :: BatchStep(t, batch, u)
  }

  /** Consecutive tables of a job: each is one committed batch after the one before. */
  ghost predicate BatchChain(h: seq<Table>) {
    |h| > 0 && forall k :: 0 <= k < |h| - 1 ==> SomeBatch(h[k], h[k + 1])
  }

  /** Consecutive tables of a cleanup: each is one covered row shorter. */
  ghost predicate DeletionChain(h: seq<Table>) {
    |h| > 0 && forall k :: 0 <= k < |h| - 1 ==> CleanupStep(h[k], h[k + 1])
  }

  /** The cursor moves strictly up, and with each commit everything up to it is analyzed and nothing new beyond it. */
  ghost predicate Advances(t: Table, h: seq<Table>, cursors: seq<int>) {
    && |cursors| == |h| > 0 && cursors[0] == 0
    && (forall k :: 0 < k < |cursors| ==> cursors[k - 1] < cursors[k])
    && (forall k :: 0 <= k < |cursors| ==> CursorMeans(t, h[k], cursors[k]))
  }

  lemma AdvancesNext(t: Table, h: seq<Table>, cursors: seq<int>, v: Table, next: int)
    requires Advances(t, h, cursors) && cursors[|cursors| - 1] < next && CursorMeans(t, v, next)
    ensures Advances(t, h + [v], cursors + [next])
  {
  }

  /** Where a job stands: its table after each commit, and what its counters have counted. */
  ghost predicate Progress(t: Table, u: Table, h: seq<Table>, cursors: seq<int>, processed: int, marked: int, cursor: int) {
    && BatchChain(h) && h[0] == t && h[|h| - 1] == u
    && processed == Count(u, IsAnalyzed) - Count(t, IsAnalyzed) >= 0
    && marked == Count(u, Covered) - Count(t, Covered) >= 0
    && Advances(t, h, cursors) && cursor == cursors[|cursors| - 1]
  }

  lemma ProgressNext(t: Table, u: Table, h: seq<Table>, cursors: seq<int>, processed: int, marked: int, cursor: int,
                     v: Table, taken: nat, more: nat, next: int)
    requires Progress(t, u, h, cursors, processed, marked, cursor) && SomeBatch(u, v) && cursor < next && CursorMeans(t, v, next)
    requires Count(v, Covered) == Count(u, Covered) + more && Count(v, IsAnalyzed) == Count(u, IsAnalyzed) + taken
    ensures Progress(t, v, h + [v], cursors + [next], processed + taken, marked + more, next)
  {
    ChainAppend(h, v);
    AdvancesNext(t, h, cursors, v, next);
  }

  predicate AllAnalyzed(t: Table) {
    forall j :: 0 <= j < |t| ==> t[j].analyzed
  }

  /** How many rows became analyzed from `t` to `u`. */
  function Gain(t: Table, u: Table): int {
    Count(u, IsAnalyzed) - Count(t, IsAnalyzed)
  }

  ghost predicate Steady(clock: nat -> real) {
    forall i: nat, j: nat :: i <= j ==> clock(i) <= clock(j)
  }

  /** Reading number `k` of the clock is past the deadline. */
  predicate Late(config: Config, world: World, k: nat) {
    world.clock(k) - world.clock(0) >= config.maxSeconds
  }

  /** Iteration `k` begins in time, finds the job running and raises nowhere. */
  predicate Undisturbed(config: Config, world: World, k: nat) {
    !Late(config, world, k + 1) && world.signal(k) == Running && world.fault(k) == NoFault
  }

  /** Commit `k` takes as many rows as the batch size and the rest of the limit allow, or all that are pending. */
  ghost predicate FullBatch(config: Config, h: seq<Table>, k: nat)
    requires k + 1 < |h|
  {
    var room := Min(Max(config.batchSize, 1), config.maxRecords - Gain(h[0], h[k]));
    0 < Gain(h[k], h[k + 1]) <= room && (Gain(h[k], h[k + 1]) < room ==> AllAnalyzed(h[k + 1]))
  }

  ghost predicate FullBatches(config: Config, h: seq<Table>) {
    forall k: nat :: k + 1 < |h| ==> FullBatch(config, h, k)
  }

  lemma FullBatchesNext(config: Config, h: seq<Table>, v: Table)
    requires h != [] && FullBatches(config, h) && FullBatch(config, h + [v], |h| - 1)
    ensures FullBatches(config, h + [v])
  {
    var all := h + [v];
    forall k: nat | k + 1 < |all|
      ensures FullBatch(config, all, k)
    {
      if k + 1 < |h| {
        assert FullBatch(config, h, k);
      }
    }
  }

  /** Why a job ends after its first `n` iterations committed and led from `t` to `u`. */
  ghost predicate EndsFor(config: Config, world: World, n: nat, t: Table, u: Table, status: JobStatus) {
    if Gain(t, u) >= config.maxRecords then status == Limited
    else
      match status
      case Limited => false
      case Failed =>
        && !Late(config, world, n + 1) && world.signal(n) == Running
        && (world.fault(n) == AtSelect || (world.fault(n) != NoFault && !AllAnalyzed(u)))
      case TimedOut =>
        || Late(config, world, n + 1)
        || (Late(config, world, n + 2) && (world.signal(n) != Running || (world.fault(n) != AtSelect && AllAnalyzed(u))))
      case Stopped => !Late(config, world, n + 2) && world.signal(n) != Running
      case Completed =>
        !Late(config, world, n + 2) && world.signal(n) == Running && world.fault(n) != AtSelect && AllAnalyzed(u)
  }

  /**
  How the loop of a job is left after `n` commits: `ticks` readings were taken, `analyzed` rows processed,
  `drained` tells whether none is left pending, and `status` is what the loop set.
  */
  predicate LeavesLoop(config: Config, world: World, n: nat, ticks: nat, analyzed: int, drained: bool, status: JobStatus) {
    if analyzed >= config.maxRecords then ticks == n + 1 && status == Completed
    else
      && ticks == n + 2
      && if Late(config, world, n + 1) then status == Completed
         else if world.signal(n) != Running then status == Stopped
         else if status == Failed then world.fault(n) == AtSelect || (world.fault(n) != NoFault && !drained)
         else status == Completed && world.fault(n) != AtSelect && drained
  }

  lemma LeftForGood(config: Config, world: World, n: nat, ticks: nat, t: Table, u: Table, status: JobStatus, end: JobStatus)
    requires Steady(world.clock) && LeavesLoop(config, world, n, ticks, Gain(t, u), AllAnalyzed(u), status)
    requires end == if status == Failed then Failed
                    else if Gain(t, u) >= config.maxRecords then Limited
                    else if Late(config, world, ticks) then TimedOut
                    else status
    ensures EndsFor(config, world, n, t, u, end)
  {
    assert world.clock(n + 1) <= world.clock(n + 2);
  }

  /** The counters of a job that raised may run ahead of those of its commits; `marked` only when the commit raised. */
  predicate Failing(world: World, n: nat, analyzed: int, covered: int, last: int, status: JobStatus,
                    processed: int, marked: int, cursor: int) {
    status == Failed ==>
      && (if world.fault(n) == AtSelect then processed == analyzed && cursor == last else processed > analyzed)
      && (if world.fault(n) == AtCommit then marked >= covered else marked == covered)
  }

  /** The counters of a job that did not fail are exact. */
  ghost predicate Counters(world: World, n: nat, t: Table, u: Table, last: int, result: JobResult) {
    var analyzed, covered := Gain(t, u), Count(u, Covered) - Count(t, Covered);
    && analyzed >= 0 && covered >= 0
    && (result.status != Failed ==> result.processed == analyzed && result.marked == covered && result.cursor == last)
    && Failing(world, n, analyzed, covered, last, result.status, result.processed, result.marked, result.cursor)
  }

  /**
  What a job that ended has to show for itself. `h` is a chain of committed batches from `t` to `u`, one for
  each undisturbed iteration, and `cursors` are the cursor's values, strictly increasing. The iteration after
  them says why the job ended.
  */
  ghost predicate JobOutcome(t: Table, u: Table, h: seq<Table>, cursors: seq<int>, config: Config, world: World,
                             result: JobResult) {
    && BatchChain(h) && h[0] == t && h[|h| - 1] == u && Advances(t, h, cursors)
    && FullBatches(config, h)
    && (forall k: nat :: k < |h| - 1 ==> Undisturbed(config, world, k))
    && EndsFor(config, world, |h| - 1, t, u, result.status)
    && Counters(world, |h| - 1, t, u, cursors[|cursors| - 1], result)
    && (config.maxRecords >= 0 ==> result.processed <= config.maxRecords)
  }

  /** The iterations that committed, and how the job stands after them. */
  ghost predicate Underway(t: Table, u: Table, h: seq<Table>, cursors: seq<int>, config: Config, world: World,
                           processed: int, marked: int, cursor: int) {
    && Progress(t, u, h, cursors, processed, marked, cursor)
    && FullBatches(config, h)
    && (forall k: nat :: k < |h| - 1 ==> Undisturbed(config, world, k))
  }

  lemma UnderwayNext(t: Table, u: Table, h: seq<Table>, cursors: seq<int>, config: Config, world: World, processed: int,
                     marked: int, cursor: int, limit: nat, v: Table, taken: nat, more: nat, next: int)
    requires Underway(t, u, h, cursors, config, world, processed, marked, cursor) && Undisturbed(config, world, |h| - 1)
    requires limit == Min(Max(config.batchSize, 1), config.maxRecords - processed) && 0 < taken <= limit
    requires SomeBatch(u, v) && cursor < next && CursorMeans(t, v, next) && (taken < limit ==> AllAnalyzedAfter(v, next))
    requires Count(v, Covered) == Count(u, Covered) + more && Count(v, IsAnalyzed) == Count(u, IsAnalyzed) + taken
    ensures Underway(t, v, h + [v], cursors + [next], config, world, processed + taken, marked + more, next)
  {
    ProgressNext(t, u, h, cursors, processed, marked, cursor, v, taken, more, next);
    var all := h + [v];
    assert all[|h| - 1] == u && all[|h|] == v && all[0] == t;
    assert FullBatch(config, all, |h| - 1);
    FullBatchesNext(config, h, v);
  }

  /** A cursor beyond which nothing is pending has nothing pending before it either. */
  lemma AllAnalyzedMeaning(t: Table, u: Table, cursor: int)
    requires CursorMeans(t, u, cursor)
    ensures AllAnalyzedAfter(u, cursor) <==> AllAnalyzed(u)
  {
  }

  lemma ConcludeJob(t: Table, u: Table, h: seq<Table>, cursors: seq<int>, config: Config, world: World,
                    analyzed: int, covered: int, last: int, result: JobResult)
    requires Underway(t, u, h, cursors, config, world, analyzed, covered, last)
    requires EndsFor(config, world, |h| - 1, t, u, result.status)
    requires Counters(world, |h| - 1, t, u, last, result)
    requires config.maxRecords >= 0 ==> result.processed <= config.maxRecords
    ensures JobOutcome(t, u, h, cursors, config, world, result)
  {
  }

  /** The status is fixed by the limit, the readings and the table that the job left. */
  lemma JobStatusExact(t: Table, u: Table, h: seq<Table>, cursors: seq<int>, config: Config, world: World, result: JobResult)
    requires Steady(world.clock) && JobOutcome(t, u, h, cursors, config, world, result)
    ensures var n, limited := |h| - 1, Gain(t, u) >= config.maxRecords;
            && (result.status == Limited <==> limited)
            && (result.status == Stopped <==> !limited && !Late(config, world, n + 2) && world.signal(n) != Running)
            && (result.status == Failed <==> !limited && !Late(config, world, n + 1) && world.signal(n) == Running
                                             && (world.fault(n) == AtSelect || (world.fault(n) != NoFault && !AllAnalyzed(u))))
            && (result.status == Completed <==> !limited && !Late(config, world, n + 2) && world.signal(n) == Running
                                                && world.fault(n) != AtSelect && AllAnalyzed(u))
            && (result.status == TimedOut <==>
                  !limited && (Late(config, world, n + 1)
                               || (Late(config, world, n + 2)
                                   && (world.signal(n) != Running || (world.fault(n) != AtSelect && AllAnalyzed(u))))))
  {
    assert world.clock(|h|) <= world.clock(|h| + 1);
  }

  /**
  A job that is never asked to stop, meets no fault and is never late does its work: it ends with every row
  analyzed, or after exactly as many rows as it may process.
  */
  lemma UndisturbedJobFinishes(t: Table, u: Table, h: seq<Table>, cursors: seq<int>, config: Config, world: World,
                               result: JobResult)
    requires JobOutcome(t, u, h, cursors, config, world, result)
    requires forall k: nat :: Undisturbed(config, world, k)
    ensures || (result.status == Completed && AllAnalyzed(u))
            || (result.status == Limited && (config.maxRecords >= 0 ==> result.processed == Gain(t, u) == config.maxRecords))
  {
    assert Undisturbed(config, world, |h| - 1) && Undisturbed(config, world, |h|);
  }

  /** A job that is found stopped or gone at once, with records and time left, commits nothing. */
  lemma StoppedAtOnce(t: Table, u: Table, h: seq<Table>, cursors: seq<int>, config: Config, world: World, result: JobResult)
    requires JobOutcome(t, u, h, cursors, config, world, result)
    requires world.signal(0) != Running && config.maxRecords > 0 && !Late(config, world, 1) && !Late(config, world, 2)
    ensures u == t && result == JobResult(Stopped, 0, 0, 0)
  {
    assert |h| == 1 || Undisturbed(config, world, 0);
  }

  lemma DeletionAppend(h: seq<Table>, u: Table)
    requires DeletionChain(h) && CleanupStep(h[|h| - 1], u)
    ensures DeletionChain(h + [u])
  {
    var all := h + [u];
    forall k | 0 <= k < |all| - 1
      ensures CleanupStep(all[k], all[k + 1])
    {
      if k < |h| - 1 {
        assert CleanupStep(h[k], h[k + 1]);
      }
    }
  }

  /** Where a cleanup stands after `deleted` deletions. */
  ghost predicate CleanedUp(t: Table, u: Table, h: seq<Table>, deleted: nat) {
    && DeletionChain(h) && h[0] == t && h[|h| - 1] == u
    && Count(u, Covered) == Count(t, Covered) - deleted
    && |u| == |t| - deleted && OldestGone(t, u)
  }

  lemma CleanupNext(t: Table, u: Table, h: seq<Table>, deleted: nat, p: nat)
    requires CleanedUp(t, u, h, deleted) && OldestCovered(u, p)
    ensures CleanedUp(t, Without(u, p), h + [Without(u, p)], deleted + 1)
  {
    OldestGoneNext(t, u, p);
    CountWithout(u, p, Covered);
    DeletionAppend(h, Without(u, p));
  }

  lemma ChainAppend(h: seq<Table>, u: Table)
    requires BatchChain(h) && SomeBatch(h[|h| - 1], u)
    ensures BatchChain(h + [u])
  {
    var all := h + [u];
    forall k | 0 <= k < |all| - 1
      ensures SomeBatch(all[k], all[k + 1])
    {
      if k < |h| - 1 {
        assert SomeBatch(h[k], h[k + 1]);
      }
    }
  }

  lemma JobIsChain(h: seq<Table>)
    requires BatchChain(h)
    ensures Chain(h)
  {
    forall k | 0 <= k < |h| - 1
      ensures Step(h[k], h[k + 1])
    {
      assert SomeBatch(h[k], h[k + 1]);
    }
  }

  lemma CleanupIsChain(h: seq<Table>)
    requires DeletionChain(h)
    ensures Chain(h)
  {
    forall k | 0 <= k < |h| - 1
      ensures Step(h[k], h[k + 1])
    {
      assert CleanupStep(h[k], h[k + 1]);
    }
  }

  /**
  A job that leaves no row pending, after any history, has covered exactly the rows that a later row of
  their group properly extends: batch size, limits and earlier partial jobs have no say in it.
  */
  lemma FinishedJobIsExact(g: seq<Table>, h: seq<Table>, i: nat)
    requires Run(g) && BatchChain(h) && g[|g| - 1] == h[0]
    requires var t := h[|h| - 1]; i < |t| && forall j :: 0 <= j < |t| ==> t[j].analyzed
    ensures Covered(h[|h| - 1][i]) <==> Extended(h[|h| - 1], i)
  {
    JobIsChain(h);
    RunContinues(g, h);
    var all := g + h[1..];
    assert all[|all| - 1] == h[|h| - 1];
    CoverageIsExact(all, |all| - 1, i);
  }

  predicate DistinctAt(rows: seq<Conversation>, i: int, j: int) {
    0 <= i < |rows| && 0 <= j < |rows| && i != j ==> rows[i] != rows[j]
  }

  function Min(a: int, b: int): int {
    if a < b then a else b
  }

  function Max(a: int, b: int): int {
    if a > b then a else b
  }

  class Store {
    var rows: seq<Conversation>
    var nextId: int

    ghost predicate Valid()
      reads this, rows
    {
      && (forall i, j :: DistinctAt(rows, i, j))
      && WellFormed(View())
      && nextId > 0
      && (forall i :: 0 <= i < |rows| ==> rows[i].id < nextId)
    }

    function View(): (t: Table)
      reads this, rows
    {
      Views(rows)
    }

    constructor ()
      ensures Valid() && View() == [] && Run([View()])
    {
      rows, nextId := [], 1;
    }

    method Insert(conversationId: string, userId: string, apiKeyId: string, trajectory: seq<Json>, createdAt: int)
      requires Valid()
      requires conversationId != "" && forall i :: 0 <= i < |rows| ==> rows[i].conversationId != conversationId
      modifies this
      ensures Valid() && InsertStep(old(View()), View())
      ensures View() == old(View()) + [Row(old(nextId), conversationId, userId, apiKeyId, trajectory, createdAt, "", false)]
    {
      var row := new Conversation(nextId, conversationId, userId, apiKeyId, trajectory, createdAt);
      rows := rows + [row];
      nextId := nextId + 1;
      assert View() == old(View()) + [row.View()];
      forall i, j
        ensures DistinctAt(rows, i, j) && InOrder(View(), i, j)
      {
        assert DistinctAt(old(rows), i, j) && InOrder(old(View()), i, j);
      }
    }

    /** Writes the two columns that coverage analysis owns. */
    method WriteRow(p: nat, row: Row)
      requires Valid() && p < |rows| && SameRecord(View()[p], row)
      modifies rows
      ensures Valid() && View() == old(View())[p := row]
    {
      rows[p].coveredBy, rows[p].analyzed := row.coveredBy, row.analyzed;
      forall i | 0 <= i < |rows| && i != p
        ensures rows[i] != rows[p]
      {
        assert DistinctAt(rows, i, p);
      }
      assert View() == old(View())[p := row];
      SameRecordsWellFormed(old(View()), View());
    }

    /** One turn of the candidate loop of row `p`; `t` is the table when the candidates were queried. */
    method MarkCandidate(p: nat, cs: seq<int>, k: nat, coveredIds: set<int>, group: seq<int>, ghost t: Table)
      returns (ids: set<int>, marked: nat)
      requires Valid() && WellFormed(t) && p < |t| == |rows| && Listed(t, p, cs) && k < |cs|
      requires View() == MarkedAbove(t, p, Reached(cs, k)) && TracksCovered(View(), coveredIds, group)
      modifies rows
      ensures Valid() && View() == MarkedAbove(t, p, Reached(cs, k + 1))
      ensures TracksCovered(View(), ids, group)
      ensures Count(View(), Covered) == Count(old(View()), Covered) + marked
    {
      ids, marked := coveredIds, 0;
      var c := cs[k];
      CandidateStillOpen(t, p, cs, k);
      MarkedUpTo(t, p, cs, k + 1);
      assert !Covered(View()[c]);
      if rows[c].id in ids || rows[c].coveredBy != "" {
        assert false; // the query returned only uncovered rows, and each candidate is visited once
      } else if IsPrefixTrajectory(rows[c].trajectory, rows[p].trajectory) {
        var covered := View()[c].(coveredBy := rows[p].conversationId);
        CountUpdate(View(), Covered, c, covered);
        TracksNewlyCovered(View(), ids, group, c, covered);
        WriteRow(c, covered);
        ids := ids + {rows[c].id};
        marked := 1;
      }
    }

    /** The loop over the candidates of row `p`, which is uncovered. */
    method MarkCandidates(p: nat, coveredIds: set<int>, group: seq<int>) returns (ids: set<int>, marked: nat)
      requires Valid() && p < |rows| && TracksCovered(View(), coveredIds, group)
      modifies rows
      ensures Valid() && View() == MarkedAbove(old(View()), p, 0)
      ensures TracksCovered(View(), ids, group)
      ensures Count(View(), Covered) == Count(old(View()), Covered) + marked
    {
      ids, marked := coveredIds, 0;
      ghost var before := View();
      var candidates := Candidates(View(), p, |rows|);
      CandidatesListed(before, p);
      NothingMarked(before, p, candidates);
      for k := 0 to |candidates|
        invariant Valid() && View() == MarkedAbove(before, p, Reached(candidates, k))
        invariant TracksCovered(View(), ids, group)
        invariant Count(View(), Covered) == Count(before, Covered) + marked
      {
        var more: nat;
        ids, more := MarkCandidate(p, candidates, k, ids, group, before);
        marked := marked + more;
      }
    }

    /** One turn of the loop over a group, in descending id order. `w` are the positions visited before. */
    method VisitConversation(p: int, coveredIds: set<int>, group: seq<int>, ghost t: Table, ghost w: set<int>)
      returns (ids: set<int>, marked: nat)
      requires Valid() && WellFormed(t) && MarkedFrom(t, w, View()) && 0 <= p < |rows|
      requires forall q :: q in w && 0 <= q < |t| && SameGroup(t[q], t[p]) ==> p < q
      requires p in group && TracksCovered(View(), coveredIds, group)
      modifies rows
      ensures Valid() && MarkedFrom(t, w + {p}, View())
      ensures TracksCovered(View(), ids, group)
      ensures Count(View(), Covered) == Count(old(View()), Covered) + marked
    {
      ids, marked := coveredIds, 0;
      if rows[p].id in ids {
        VisitSkips(t, w, p, View());
        return;
      }
      if |rows[p].trajectory| < 2 {
        VisitSkips(t, w, p, View());
        return;
      }
      ghost var before := View();
      ids, marked := MarkCandidates(p, ids, group);
      VisitMarks(t, w, p, before, View());
    }

    /** One (user, key) group of a batch, visited in descending id order; `w0` are the positions of earlier groups. */
    method MarkGroup(group: seq<int>, ghost t: Table, ghost w0: set<int>) returns (marked: nat)
      requires Valid() && WellFormed(t) && MarkedFrom(t, w0, View())
      requires Ascending(group) && forall k :: 0 <= k < |group| ==> 0 <= group[k] < |rows|
      requires forall q, k :: q in w0 && 0 <= q < |t| && 0 <= k < |group| ==> !SameGroup(t[q], t[group[k]])
      modifies rows
      ensures Valid() && MarkedFrom(t, w0 + Elements(group), View())
      ensures Count(View(), Covered) == Count(old(View()), Covered) + marked
    {
      marked := 0;
      var coveredIds := CoveredIds(View(), group);
      CoveredIdsTrack(View(), group);
      ghost var w := w0;
      for k := |group| downto 0
        invariant Valid() && w == w0 + Elements(group[k..]) && MarkedFrom(t, w, View())
        invariant TracksCovered(View(), coveredIds, group)
        invariant Count(View(), Covered) == Count(old(View()), Covered) + marked
      {
        NextInGroup(t, w0, group, k);
        var more: nat;
        coveredIds, more := VisitConversation(group[k], coveredIds, group, t, w);
        marked := marked + more;
        w := w + {group[k]};
      }
      assert group[0..] == group;
    }

    /** `_mark_covered_by_group` on a batch in id order: the number of rows it marks, and the marks. */
    method MarkCoveredByGroup(batch: seq<int>) returns (marked: nat)
      requires Valid() && Ascending(batch) && forall k :: 0 <= k < |batch| ==> 0 <= batch[k] < |rows|
      modifies rows
      ensures Valid() && MarkedFrom(old(View()), Elements(batch), View())
      ensures Count(View(), Covered) == Count(old(View()), Covered) + marked
    {
      marked := 0;
      ghost var t := View();
      var keys, groups := GroupByKey(View(), batch);
      for i := 0 to |keys|
        invariant Valid() && MarkedFrom(t, RowsOfKeys(t, batch, keys[..i]), View())
        invariant Count(View(), Covered) == Count(t, Covered) + marked
      {
        assert GroupAt(t, batch, keys, groups, keys[i]) && keys[i] in keys;
        var group := groups[keys[i]];
        GroupAscends(t, batch, keys[i]);
        NextGroup(t, batch, keys, i);
        var more := MarkGroup(group, t, RowsOfKeys(t, batch, keys[..i]));
        marked := marked + more;
      }
      assert keys[..|keys|] == keys;
      AllRowsGrouped(t, batch, keys, groups);
    }

    method AnalyzeRows(batch: seq<int>)
      requires Valid() && Ascending(batch) && forall k :: 0 <= k < |batch| ==> 0 <= batch[k] < |rows|
      requires forall k :: 0 <= k < |batch| ==> !View()[batch[k]].analyzed
      modifies rows
      ensures Valid() && View() == WithAnalyzed(old(View()), batch)
      ensures Count(View(), Covered) == Count(old(View()), Covered)
      ensures Count(View(), IsAnalyzed) == Count(old(View()), IsAnalyzed) + |batch|
    {
      ghost var t := View();
      assert t == WithAnalyzed(t, batch[..0]);
      for k := 0 to |batch|
        invariant Valid() && View() == WithAnalyzed(t, batch[..k])
        invariant Count(View(), Covered) == Count(t, Covered)
        invariant Count(View(), IsAnalyzed) == Count(t, IsAnalyzed) + k
      {
        AnalyzedNext(t, batch, k);
        CountUpdate(View(), Covered, batch[k], View()[batch[k]].(analyzed := true));
        CountUpdate(View(), IsAnalyzed, batch[k], View()[batch[k]].(analyzed := true));
        WriteRow(batch[k], View()[batch[k]].(analyzed := true));
      }
      assert batch[..|batch|] == batch;
    }

    /** The body of one committed iteration: mark, then set every member to analyzed. */
    method RunBatch(batch: seq<int>) returns (marked: nat)
      requires Valid() && Ascending(batch) && forall k :: 0 <= k < |batch| ==> 0 <= batch[k] < |rows|
      requires forall k :: 0 <= k < |batch| ==> !View()[batch[k]].analyzed
      modifies rows
      ensures Valid() && BatchStep(old(View()), Elements(batch), View())
      ensures Count(View(), Covered) == Count(old(View()), Covered) + marked
      ensures Count(View(), IsAnalyzed) == Count(old(View()), IsAnalyzed) + |batch|
    {
      ghost var t := View();
      marked := MarkCoveredByGroup(batch);
      MarkedKeepsAnalyzed(t, Elements(batch), View());
      MarksThenAnalyzes(t, batch, View());
      AnalyzeRows(batch);
    }

    /** Rollback of a session: the two columns it wrote get their committed values back. */
    method Restore(saved: Table)
      requires Valid() && SameRecords(View(), saved)
      modifies rows
      ensures Valid() && View() == saved
    {
      ghost var t := View();
      for k := 0 to |rows|
        invariant Valid() && View() == saved[..k] + t[k..]
      {
        RestoreNext(saved, t, k);
        WriteRow(k, saved[k]);
      }
    }

    /** Mark, set to analyzed and commit; when the commit raises, the table is as it was. */
    method CommitBatch(batch: seq<int>, fault: Fault) returns (marked: nat)
      requires Valid() && Ascending(batch) && forall k :: 0 <= k < |batch| ==> 0 <= batch[k] < |rows|
      requires forall k :: 0 <= k < |batch| ==> !View()[batch[k]].analyzed
      modifies rows
      ensures Valid()
      ensures fault == AtCommit ==> View() == old(View())
      ensures fault != AtCommit ==>
                && BatchStep(old(View()), Elements(batch), View())
                && Count(View(), Covered) == Count(old(View()), Covered) + marked
                && Count(View(), IsAnalyzed) == Count(old(View()), IsAnalyzed) + |batch|
    {
      var saved := View();
      marked := RunBatch(batch);
      if fault == AtCommit {
        BatchPreservesRecords(saved, Elements(batch), View());
        Restore(saved);
      }
    }

    /** The session of one iteration: select, mark, commit; a session that raises leaves the table as it was. */
    method RunSession(cursor: int, limit: nat, fault: Fault, ghost t0: Table)
      returns (end: SessionEnd, taken: nat, marked: nat, next: int)
      requires Valid() && CursorMeans(t0, View(), cursor) && limit > 0
      modifies rows
      ensures Valid() && taken <= limit
      ensures SessionOutcome(t0, old(View()), View(), cursor, limit, fault, end, taken, marked, next)
    {
      end, taken, marked, next := Raised, 0, 0, cursor;
      if fault == AtSelect {
        return;
      }
      ghost var t := View();
      var batch := PendingFrom(View(), cursor, limit, 0);
      if batch == [] {
        NothingPending(t, cursor, limit);
        end := Drained;
        return;
      }
      BatchIsPending(t, cursor, limit, batch);
      next, taken := rows[batch[|batch| - 1]].id, |batch|;
      if fault == AtMark {
        return;
      }
      marked := CommitBatch(batch, fault);
      if fault == AtCommit {
        return;
      }
      BatchCommits(t0, t, View(), cursor, limit, batch, marked);
      end := Committed;
    }

    /** The session of one turn and the counters that follow it: they run ahead of the table only when it raised. */
    method RunIteration(config: Config, ghost world: World, limit: nat, fault: Fault, processed: int, marked: int,
                        cursor: int, ghost t: Table, ghost h: seq<Table>, ghost cursors: seq<int>)
      returns (end: SessionEnd, processed': int, marked': int, cursor': int, ghost h': seq<Table>, ghost cursors': seq<int>)
      requires Valid() && Underway(t, View(), h, cursors, config, world, processed, marked, cursor)
      requires limit == Min(Max(config.batchSize, 1), config.maxRecords - processed) && limit > 0
      requires fault == world.fault(|h| - 1) && !Late(config, world, |h|) && world.signal(|h| - 1) == Running
      modifies rows
      ensures Valid() && processed' <= processed + limit
      ensures end == Committed ==> |h'| == |h| + 1 && processed' > processed
      ensures end == Committed ==> Underway(t, View(), h', cursors', config, world, processed', marked', cursor')
      ensures end != Committed ==> h' == h && cursors' == cursors && View() == old(View())
      ensures end == Drained ==> processed' == processed && marked' == marked && cursor' == cursor
      ensures end == Drained ==> fault != AtSelect && AllAnalyzed(View())
      ensures end == Raised ==> fault == AtSelect || (fault != NoFault && !AllAnalyzed(View()))
      ensures end == Raised ==> Failing(world, |h| - 1, processed, marked, cursor, Failed, processed', marked', cursor')
    {
      ghost var before := View();
      var taken, more;
      end, taken, more, cursor' := RunSession(cursor, limit, fault, t);
      processed', marked' := processed + taken, marked + more;
      h', cursors' := h, cursors;
      AllAnalyzedMeaning(t, View(), if end == Committed then cursor' else cursor);
      if end == Committed {
        UnderwayNext(t, before, h, cursors, config, world, processed, marked, cursor, limit, View(), taken, more, cursor');
        h', cursors' := h + [View()], cursors + [cursor'];
      }
    }

    /** One turn of the loop: time, job row, session. A turn that leaves the loop leaves the table as it was. */
    method Turn(config: Config, world: World, n: nat, processed: int, marked: int, cursor: int, ghost t: Table,
                ghost h: seq<Table>, ghost cursors: seq<int>)
      returns (goesOn: bool, status: JobStatus, processed': int, marked': int, cursor': int, ghost h': seq<Table>,
               ghost cursors': seq<int>)
      requires Valid() && Underway(t, View(), h, cursors, config, world, processed, marked, cursor)
      requires n == |h| - 1 && processed < config.maxRecords
      modifies rows
      ensures Valid() && processed' <= config.maxRecords
      ensures goesOn ==> status == Completed && |h'| == |h| + 1 && processed' > processed
      ensures goesOn ==> Underway(t, View(), h', cursors', config, world, processed', marked', cursor')
      ensures !goesOn ==> h' == h && cursors' == cursors && View() == old(View())
      ensures !goesOn ==> LeavesLoop(config, world, n, n + 2, processed, AllAnalyzed(View()), status)
      ensures !goesOn && status != Failed ==> processed' == processed && marked' == marked && cursor' == cursor
      ensures !goesOn ==> Failing(world, n, processed, marked, cursor, status, processed', marked', cursor')
    {
      goesOn, status, processed', marked', cursor', h', cursors' := false, Completed, processed, marked, cursor, h, cursors;
      if world.clock(n + 1) - world.clock(0) >= config.maxSeconds {
        return;
      }
      var limit := Min(Max(config.batchSize, 1), config.maxRecords - processed);
      if world.signal(n) != Running {
        status := Stopped;
        return;
      }
      var end;
      end, processed', marked', cursor', h', cursors' :=
        RunIteration(config, world, limit, world.fault(n), processed, marked, cursor, t, h, cursors);
      if end == Raised {
        status := Failed;
      }
      goesOn := end == Committed;
    }

    /**
    The loop of the job. `analyzed`, `covered` and `last` are what the counters said after the last commit, and
    `processed`, `marked` and `cursor` what they say in the end.
    */
    method RunIterations(config: Config, world: World)
      returns (status: JobStatus, ticks: nat, processed: int, marked: int, cursor: int, ghost history: seq<Table>,
               ghost cursors: seq<int>, ghost analyzed: int, ghost covered: int, ghost last: int)
      requires Valid()
      modifies rows
      ensures Valid() && Underway(old(View()), View(), history, cursors, config, world, analyzed, covered, last)
      ensures LeavesLoop(config, world, |history| - 1, ticks, analyzed, AllAnalyzed(View()), status)
      ensures status != Failed ==> processed == analyzed && marked == covered && cursor == last
      ensures Failing(world, |history| - 1, analyzed, covered, last, status, processed, marked, cursor)
      ensures config.maxRecords >= 0 ==> processed <= config.maxRecords
    {
      processed, marked, cursor, status, ticks := 0, 0, 0, Completed, 1;
      var n: nat := 0;
      ghost var t := View();
      analyzed, covered, last := 0, 0, 0;
      history, cursors := [t], [0];
      while processed < config.maxRecords
        invariant Valid() && Underway(t, View(), history, cursors, config, world, processed, marked, cursor)
        invariant config.maxRecords >= 0 ==> processed <= config.maxRecords
        invariant status == Completed && analyzed == processed && covered == marked && last == cursor
        invariant n == |history| - 1 && ticks == n + 1
      {
        var goesOn;
        goesOn, status, processed, marked, cursor, history, cursors :=
          Turn(config, world, n, processed, marked, cursor, t, history, cursors);
        ticks := ticks + 1;
        if !goesOn {
          break;
        }
        analyzed, covered, last := processed, marked, cursor;
        n := n + 1;
      }
    }

    /** `_execute_coverage_job`. `history` lists the table after each commit, and `cursors` the cursor. */
    method ExecuteCoverageJob(config: Config, world: World)
      returns (result: JobResult, ghost history: seq<Table>, ghost cursors: seq<int>)
      requires Valid() && Steady(world.clock)
      modifies rows
      ensures Valid() && JobOutcome(old(View()), View(), history, cursors, config, world, result)
    {
      ghost var analyzed, covered, last;
      var status, ticks, processed, marked, cursor;
      status, ticks, processed, marked, cursor, history, cursors, analyzed, covered, last := RunIterations(config, world);
      ghost var left := status;
      if status != Failed {
        if processed >= config.maxRecords {
          status := Limited;
        } else if world.clock(ticks) - world.clock(0) >= config.maxSeconds {
          status := TimedOut;
        }
      }
      LeftForGood(config, world, |history| - 1, ticks, old(View()), View(), left, status);
      result := JobResult(status, processed, marked, cursor);
      ConcludeJob(old(View()), View(), history, cursors, config, world, analyzed, covered, last, result);
    }

    method DeleteRow(p: nat)
      requires Valid() && p < |rows|
      modifies this`rows
      ensures Valid() && View() == Without(old(View()), p)
    {
      ghost var was := rows;
      WithoutWellFormed(View(), p);
      rows := rows[..p] + rows[p + 1..];
      forall i, j
        ensures DistinctAt(rows, i, j)
      {
        assert DistinctAt(was, if i < p then i else i + 1, if j < p then j else j + 1);
      }
      assert View() == Without(old(View()), p);
    }

    /**
    Cleanup with covered rows only: deletes the oldest of them, as many as `limit` clamped to 1..10000 allows.
    `history` lists the table after each row.
    */
    method CleanupCovered(limit: int) returns (deleted: nat, ghost history: seq<Table>)
      requires Valid()
      modifies this`rows
      ensures Valid() && DeletionChain(history) && history[0] == old(View()) && history[|history| - 1] == View()
      ensures deleted == Min(Min(Max(limit, 1), 10000), Count(old(View()), Covered))
      ensures |rows| == |old(rows)| - deleted && OldestGone(old(View()), View())
    {
      var safe := Min(Max(limit, 1), 10000);
      ghost var t := View();
      history, deleted := [t], 0;
      while deleted < safe
        invariant Valid() && deleted <= safe && CleanedUp(t, View(), history, deleted)
      {
        var p := FindOldest(View(), |rows|);
        if p == -1 {
          CountNone(View(), Covered);
          break;
        }
        CleanupNext(t, View(), history, deleted, p);
        DeleteRow(p);
        history := history + [View()];
        deleted := deleted + 1;
      }
    }
  }
}
