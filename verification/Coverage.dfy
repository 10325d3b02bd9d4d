/**
The declarative side of training-data coverage analysis: what one batch marks, which states
inserts, batches and covered-only cleanup can reach, and what the covered set then means.
The code that computes it in place is in CoverageStore.dfy.
*/
module Coverage {
  import opened Json

  /** A stored conversation. `trajectory` is the parsed list: a text that does not parse is []. */
  datatype Row = Row(
    id: int,
    conversationId: string,
    userId: string,
    apiKeyId: string,
    trajectory: seq<Json>,
    createdAt: int,
    coveredBy: string,
    analyzed: bool)

  /** The rows of the table in ascending id order. */
  type Table = seq<Row>

  predicate SameGroup(a: Row, b: Row) {
    a.userId == b.userId && a.apiKeyId == b.apiKeyId
  }

  predicate IsPrefixTrajectory(candidate: seq<Json>, trajectory: seq<Json>) {
    0 < |candidate| < |trajectory| && trajectory[..|candidate|] == candidate
  }

  predicate Covered(row: Row) {
    row.coveredBy != ""
  }

  /** `b` is a later row of the same user and key whose trajectory properly extends that of `a`. */
  predicate Extends(b: Row, a: Row) {
    SameGroup(a, b) && a.id < b.id && IsPrefixTrajectory(a.trajectory, b.trajectory)
  }

  lemma ExtendsTransitive(c: Row, b: Row, a: Row)
    requires Extends(c, b) && Extends(b, a)
    ensures Extends(c, a)
  {
    assert c.trajectory[..|a.trajectory|] == c.trajectory[..|b.trajectory|][..|a.trajectory|];
  }

  /** Ids ascend and conversation ids are unique, for one pair of positions. */
  predicate InOrder(t: Table, i: int, j: int) {
    0 <= i < j < |t| ==> t[i].id < t[j].id && t[i].conversationId != t[j].conversationId
  }

  ghost predicate WellFormed(t: Table) {
    && (forall i :: 0 <= i < |t| ==> t[i].id > 0 && t[i].conversationId != "")
    && (forall i, j :: InOrder(t, i, j))
  }

  lemma SameRecordsWellFormed(t: Table, u: Table)
    requires WellFormed(t) && SameRecords(t, u)
    ensures WellFormed(u)
  {
    forall i, j
      ensures InOrder(u, i, j)
    {
      assert InOrder(t, i, j);
      assert 0 <= i < j < |t| ==> SameRecord(t[i], u[i]) && SameRecord(t[j], u[j]);
    }
  }

  lemma IdOrder(t: Table, i: int, j: int)
    requires WellFormed(t) && 0 <= i < |t| && 0 <= j < |t| && t[i].id < t[j].id
    ensures i < j
  {
    assert InOrder(t, j, i);
  }

  /** The columns that coverage analysis never writes are equal. */
  predicate SameRecord(a: Row, b: Row) {
    a == b.(coveredBy := a.coveredBy, analyzed := a.analyzed)
  }

  ghost predicate SameRecords(t: Table, u: Table) {
    |t| == |u| && forall i :: 0 <= i < |t| ==> SameRecord(t[i], u[i])
  }

  // ---------- What one batch does ----------

  /** Position `i` of the batch `w` can cover position `j`, judged on the table before the batch. */
  ghost predicate CanCover(t: Table, w: set<int>, i: int, j: int) {
    i in w && 0 <= i < |t| && 0 <= j < |t| && !Covered(t[i]) && Extends(t[i], t[j])
  }

  /** Among the visited positions `w`, `i` is the one with the largest id that can cover `j`. */
  ghost predicate LargestCoverer(t: Table, w: set<int>, i: int, j: int) {
    CanCover(t, w, i, j) && forall k :: CanCover(t, w, k, j) ==> k <= i
  }

  /** Row `j` after the positions `w` have been visited, when `was` is the row before. */
  ghost predicate MarkedRow(t: Table, w: set<int>, j: nat, now: Row)
    requires j < |t|
  {
    && SameRecord(now, t[j])
    && now.analyzed == t[j].analyzed
    && (Covered(t[j]) ==> now == t[j])
    && (!Covered(t[j]) ==>
          if Covered(now)
          then exists i :: LargestCoverer(t, w, i, j) && now.coveredBy == t[i].conversationId
          else forall i :: !CanCover(t, w, i, j))
  }

  /** `u` is `t` after exactly the positions `w` have been visited as coverers. */
  ghost predicate MarkedFrom(t: Table, w: set<int>, u: Table) {
    |u| == |t| && forall j :: 0 <= j < |t| ==> MarkedRow(t, w, j, u[j])
  }

  /** A committed batch: the members mark what they cover and become analyzed. */
  ghost predicate BatchStep(t: Table, batch: set<int>, u: Table) {
    && |u| == |t|
    && (forall p :: p in batch ==> 0 <= p < |t|)
    && forall j :: 0 <= j < |t| ==>
         && MarkedRow(t, batch, j, u[j].(analyzed := t[j].analyzed))
         && u[j].analyzed == (t[j].analyzed || j in batch)
  }

  /** The relation leaves no freedom: a batch determines the table after it. */
  lemma BatchStepIsDeterministic(t: Table, batch: set<int>, u: Table, v: Table)
    requires BatchStep(t, batch, u) && BatchStep(t, batch, v)
    ensures u == v
  {
    forall j | 0 <= j < |t|
      ensures u[j] == v[j]
    {
      var uj, vj := u[j].(analyzed := t[j].analyzed), v[j].(analyzed := t[j].analyzed);
      assert MarkedRow(t, batch, j, uj) && MarkedRow(t, batch, j, vj);
      if !Covered(t[j]) && Covered(uj) && Covered(vj) {
        var i :| LargestCoverer(t, batch, i, j) && uj.coveredBy == t[i].conversationId;
        var k :| LargestCoverer(t, batch, k, j) && vj.coveredBy == t[k].conversationId;
      }
    }
  }

  /** A coverer that wins some row is itself still uncovered after the batch. */
  lemma WinnerStaysUncovered(t: Table, w: set<int>, j: int, i: int, now: Row)
    requires WellFormed(t) && LargestCoverer(t, w, i, j) && MarkedRow(t, w, i, now)
    ensures !Covered(now)
  {
    if Covered(now) {
      var k :| LargestCoverer(t, w, k, i) && now.coveredBy == t[k].conversationId;
      ExtendsTransitive(t[k], t[i], t[j]);
      IdOrder(t, i, k);
      assert CanCover(t, w, k, j);
    }
  }

  // ---------- The invariant of the table ----------

  /** Row `r` keeps the text of `a` in the table: later, same group, uncovered, longer. */
  predicate Root(r: Row, a: Row) {
    !Covered(r) && r.analyzed && Extends(r, a)
  }

  ghost predicate HasRoot(t: Table, a: Row) {
    exists r :: 0 <= r < |t| && Root(t[r], a)
  }

  ghost predicate Invariant(t: Table) {
    && WellFormed(t)
    && (forall i :: 0 <= i < |t| && Covered(t[i]) ==> HasRoot(t, t[i]))
    && (forall i, j :: 0 <= i < |t| && 0 <= j < |t| && t[j].analyzed && Extends(t[j], t[i]) ==> Covered(t[i]))
  }

  /** In a fresh table every row is pending and uncovered. */
  predicate Fresh(t: Table) {
    forall i :: 0 <= i < |t| ==> !Covered(t[i]) && !t[i].analyzed
  }

  lemma FreshInvariant(t: Table)
    requires WellFormed(t) && Fresh(t)
    ensures Invariant(t)
  {
  }

  lemma WinnerIsRoot(t: Table, batch: set<int>, u: Table, a: Row, j: nat)
    requires WellFormed(t) && BatchStep(t, batch, u) && j < |t| && !Covered(t[j]) && Covered(u[j])
    requires a == u[j] || Extends(t[j], a)
    ensures HasRoot(u, a)
  {
    var now := u[j].(analyzed := t[j].analyzed);
    assert MarkedRow(t, batch, j, now);
    var i :| LargestCoverer(t, batch, i, j) && now.coveredBy == t[i].conversationId;
    WinnerStaysUncovered(t, batch, j, i, u[i].(analyzed := t[i].analyzed));
    if Extends(t[j], a) {
      ExtendsTransitive(t[i], t[j], a);
    }
    assert Root(u[i], a);
  }

  lemma BatchKeepsRoot(t: Table, batch: set<int>, u: Table, a: Row)
    requires WellFormed(t) && BatchStep(t, batch, u) && HasRoot(t, a)
    ensures HasRoot(u, a)
  {
    var r :| 0 <= r < |t| && Root(t[r], a);
    assert MarkedRow(t, batch, r, u[r].(analyzed := t[r].analyzed));
    if Covered(u[r]) {
      WinnerIsRoot(t, batch, u, a, r);
    } else {
      assert Root(u[r], a);
    }
  }

  /** A batch writes nothing but the two analysis columns, and uncovers nothing. */
  lemma BatchPreservesRecords(t: Table, batch: set<int>, u: Table)
    requires BatchStep(t, batch, u)
    ensures SameRecords(t, u) && forall i :: 0 <= i < |t| && Covered(t[i]) ==> Covered(u[i])
  {
    forall i | 0 <= i < |u|
      ensures SameRecord(t[i], u[i]) && (Covered(t[i]) ==> Covered(u[i]))
    {
      assert MarkedRow(t, batch, i, u[i].(analyzed := t[i].analyzed));
    }
  }

  lemma BatchPreservesInvariant(t: Table, batch: set<int>, u: Table)
    requires Invariant(t) && BatchStep(t, batch, u)
    ensures Invariant(u) && SameRecords(t, u)
  {
    BatchPreservesRecords(t, batch, u);
    SameRecordsWellFormed(t, u);
    forall i | 0 <= i < |u| && Covered(u[i])
      ensures HasRoot(u, u[i])
    {
      if Covered(t[i]) {
        assert HasRoot(t, t[i]);
        BatchKeepsRoot(t, batch, u, t[i]);
        var r :| 0 <= r < |u| && Root(u[r], t[i]);
        assert Root(u[r], u[i]);
      } else {
        WinnerIsRoot(t, batch, u, u[i], i);
      }
    }
    forall i, j | 0 <= i < |u| && 0 <= j < |u| && u[j].analyzed && Extends(u[j], u[i])
      ensures Covered(u[i])
    {
      assert Extends(t[j], t[i]);
      assert MarkedRow(t, batch, i, u[i].(analyzed := t[i].analyzed));
      if !t[j].analyzed {
        if Covered(t[j]) {
          CoveredDownwards(t, j, i);
        } else {
          assert CanCover(t, batch, j, i);
        }
      }
    }
  }

  /** Whatever a covered row extends is covered too. */
  lemma CoveredDownwards(t: Table, j: nat, i: nat)
    requires Invariant(t) && i < |t| && j < |t| && Covered(t[j]) && Extends(t[j], t[i])
    ensures Covered(t[i])
  {
    var r :| 0 <= r < |t| && Root(t[r], t[j]);
    ExtendsTransitive(t[r], t[j], t[i]);
  }

  // ---------- Inserts and cleanup ----------

  /** New rows get ids above every present one and start pending and uncovered. */
  ghost predicate InsertStep(t: Table, u: Table) {
    |t| <= |u| && u[..|t|] == t && WellFormed(u) && Fresh(u[|t|..])
  }

  lemma InsertPreservesInvariant(t: Table, u: Table)
    requires Invariant(t) && InsertStep(t, u)
    ensures Invariant(u)
  {
    var n := |t|;
    assert forall i :: 0 <= i < n ==> u[i] == t[i];
    assert forall i :: n <= i < |u| ==> u[i] == u[n..][i - n];
    forall i | 0 <= i < |u| && Covered(u[i])
      ensures HasRoot(u, u[i])
    {
      assert i < n;
      var r :| 0 <= r < |t| && Root(t[r], t[i]);
      assert Root(u[r], u[i]);
    }
    forall i, j | 0 <= i < |u| && 0 <= j < |u| && u[j].analyzed && Extends(u[j], u[i])
      ensures Covered(u[i])
    {
      assert j < n;
      IdOrder(u, i, j);
    }
  }

  function Without(t: Table, p: nat): Table
    requires p < |t|
  {
    t[..p] + t[p + 1..]
  }

  /** Covered-only cleanup deletes covered rows; one step deletes one of them, any one. */
  ghost predicate CleanupStep(t: Table, u: Table) {
    exists p :: 0 <= p < |t| && Covered(t[p]) && u == Without(t, p)
  }

  lemma WithoutWellFormed(t: Table, p: nat)
    requires WellFormed(t) && p < |t|
    ensures WellFormed(Without(t, p))
  {
    forall i, j
      ensures InOrder(Without(t, p), i, j)
    {
      assert InOrder(t, if i < p then i else i + 1, if j < p then j else j + 1);
    }
  }

  /** Every row but the deleted one is still there. */
  lemma WithoutKeeps(t: Table, p: nat, r: Row)
    requires p < |t| && r in t && r != t[p]
    ensures r in Without(t, p)
  {
    var i :| 0 <= i < |t| && t[i] == r;
    assert Without(t, p)[if i < p then i else i - 1] == r;
  }

  lemma CleanupKeepsRoot(t: Table, u: Table, a: Row)
    requires CleanupStep(t, u) && HasRoot(t, a)
    ensures HasRoot(u, a)
  {
    var p :| 0 <= p < |t| && Covered(t[p]) && u == Without(t, p);
    var r :| 0 <= r < |t| && Root(t[r], a);
    WithoutKeeps(t, p, t[r]);
    var k :| 0 <= k < |u| && u[k] == t[r];
    assert Root(u[k], a);
  }

  lemma WithoutComplete(t: Table, p: nat, i: int, j: int)
    requires Invariant(t) && p < |t|
    requires var u := Without(t, p); 0 <= i < |u| && 0 <= j < |u| && u[j].analyzed && Extends(u[j], u[i])
    ensures Covered(Without(t, p)[i])
  {
    var oi, oj := if i < p then i else i + 1, if j < p then j else j + 1;
    assert Without(t, p)[i] == t[oi] && Without(t, p)[j] == t[oj];
  }

  lemma WithoutRooted(t: Table, p: nat, i: nat)
    requires Invariant(t) && p < |t| && Covered(t[p]) && i < |Without(t, p)| && Covered(Without(t, p)[i])
    ensures HasRoot(Without(t, p), Without(t, p)[i])
  {
    var oi := if i < p then i else i + 1;
    assert Without(t, p)[i] == t[oi] && HasRoot(t, t[oi]);
    CleanupKeepsRoot(t, Without(t, p), t[oi]);
  }

  lemma CleanupPreservesInvariant(t: Table, u: Table)
    requires Invariant(t) && CleanupStep(t, u)
    ensures Invariant(u)
  {
    var p :| 0 <= p < |t| && Covered(t[p]) && u == Without(t, p);
    WithoutWellFormed(t, p);
    forall i | 0 <= i < |u| && Covered(u[i])
      ensures HasRoot(u, u[i])
    {
      WithoutRooted(t, p, i);
    }
    forall i, j | 0 <= i < |u| && 0 <= j < |u| && u[j].analyzed && Extends(u[j], u[i])
      ensures Covered(u[i])
    {
      WithoutComplete(t, p, i, j);
    }
  }

  // ---------- Runs ----------

  ghost predicate Step(t: Table, u: Table) {
    || InsertStep(t, u)
    || (exists batch :: BatchStep(t, batch, u))
    || CleanupStep(t, u)
  }

  /** Table states, each one step after the one before. */
  ghost predicate Chain(h: seq<Table>) {
    |h| > 0 && forall k :: 0 <= k < |h| - 1 ==> Step(h[k], h[k + 1])
  }

  /** A history of the table from the start. */
  ghost predicate Run(h: seq<Table>) {
    Chain(h) && h[0] == []
  }

  lemma RunContinues(g: seq<Table>, h: seq<Table>)
    requires Run(g) && Chain(h) && g[|g| - 1] == h[0]
    ensures Run(g + h[1..])
  {
    var all := g + h[1..];
    forall k | 0 <= k < |all| - 1
      ensures Step(all[k], all[k + 1])
    {
      if k < |g| - 1 {
        assert Step(g[k], g[k + 1]);
      } else {
        var m := k - |g| + 1;
        assert all[k] == h[m] && all[k + 1] == h[m + 1] && Step(h[m], h[m + 1]);
      }
    }
  }

  lemma StepPreservesInvariant(t: Table, u: Table)
    requires Invariant(t) && Step(t, u)
    ensures Invariant(u)
  {
    if InsertStep(t, u) {
      InsertPreservesInvariant(t, u);
    } else if CleanupStep(t, u) {
      CleanupPreservesInvariant(t, u);
    } else {
      var batch :| BatchStep(t, batch, u);
      BatchPreservesInvariant(t, batch, u);
    }
  }

  lemma RunStep(h: seq<Table>, k: nat)
    requires Run(h) && k < |h| - 1
    ensures Invariant(h[k]) && Step(h[k], h[k + 1])
  {
    ReachableInvariant(h, k);
  }

  lemma {:induction false} ReachableInvariant(h: seq<Table>, k: nat)
    requires Run(h) && k < |h|
    ensures Invariant(h[k])
  {
    if k > 0 {
      ReachableInvariant(h, k - 1);
      assert Step(h[k - 1], h[k - 1 + 1]);
      StepPreservesInvariant(h[k - 1], h[k]);
    }
  }

  /** In every reachable state a row is covered exactly when some analyzed row extends it. */
  lemma CoveredMeaning(t: Table, i: nat)
    requires Invariant(t) && i < |t|
    ensures Covered(t[i]) <==> exists j :: 0 <= j < |t| && t[j].analyzed && Extends(t[j], t[i])
  {
    if Covered(t[i]) {
      var r :| 0 <= r < |t| && Root(t[r], t[i]);
      assert t[r].analyzed && Extends(t[r], t[i]);
    }
  }

  /** Some row of the table extends row `j`. */
  ghost predicate Extended(t: Table, j: int) {
    0 <= j < |t| && exists i :: 0 <= i < |t| && Extends(t[i], t[j])
  }

  lemma ExtendedTransfers(t: Table, u: Table, j: nat)
    requires SameRecords(t, u) && j < |t|
    ensures Extended(t, j) <==> Extended(u, j)
  {
    assert SameRecord(t[j], u[j]);
    if i :| 0 <= i < |t| && Extends(t[i], t[j]) {
      assert SameRecord(t[i], u[i]);
      assert Extends(u[i], u[j]);
    }
    if i :| 0 <= i < |u| && Extends(u[i], u[j]) {
      assert SameRecord(t[i], u[i]);
      assert Extends(t[i], t[j]);
    }
  }

  lemma AnalyzedMeaning(t: Table, i: nat)
    requires Invariant(t) && i < |t|
    requires forall j :: 0 <= j < |t| ==> t[j].analyzed
    ensures Covered(t[i]) <==> Extended(t, i)
  {
    CoveredMeaning(t, i);
  }

  /** Once every row is analyzed, the covered rows are exactly those some later row of the group extends. */
  lemma CoverageIsExact(h: seq<Table>, k: nat, i: nat)
    requires Run(h) && k < |h| && i < |h[k]|
    requires forall j :: 0 <= j < |h[k]| ==> h[k][j].analyzed
    ensures Covered(h[k][i]) <==> Extended(h[k], i)
  {
    ReachableInvariant(h, k);
    AnalyzedMeaning(h[k], i);
  }

  /**
  The covered set does not depend on batch size, limits, order of jobs or interleaved inserts: two
  reachable tables that hold the same records and have analyzed the same rows cover the same rows.
  */
  lemma CoverageIndependentOfBatching(g: seq<Table>, k: nat, h: seq<Table>, m: nat, i: nat)
    requires Run(g) && Run(h) && k < |g| && m < |h|
    requires SameRecords(g[k], h[m]) && i < |g[k]|
    requires forall j :: 0 <= j < |g[k]| ==> g[k][j].analyzed == h[m][j].analyzed
    ensures Covered(g[k][i]) == Covered(h[m][i])
  {
    var t, u := g[k], h[m];
    ReachableInvariant(g, k);
    ReachableInvariant(h, m);
    CoveredMeaning(t, i);
    CoveredMeaning(u, i);
    assert forall j :: 0 <= j < |t| ==> SameRecord(t[j], u[j]);
    if Covered(t[i]) {
      var j :| 0 <= j < |t| && t[j].analyzed && Extends(t[j], t[i]);
      assert Extends(u[j], u[i]);
    }
    if Covered(u[i]) {
      var j :| 0 <= j < |u| && u[j].analyzed && Extends(u[j], u[i]);
      assert Extends(t[j], t[i]);
    }
  }

  // ---------- Nothing is lost ----------

  /** The content of `a` is still in the table: `r` is the same record, or a later extension of it. */
  predicate Keeps(r: Row, a: Row) {
    SameRecord(r, a) || Extends(r, a)
  }

  ghost predicate Survives(t: Table, a: Row) {
    exists r :: 0 <= r < |t| && Keeps(t[r], a)
  }

  lemma RootSurvives(t: Table, a: Row)
    requires HasRoot(t, a)
    ensures Survives(t, a)
  {
    var r :| 0 <= r < |t| && Root(t[r], a);
    assert Keeps(t[r], a);
  }

  lemma InsertKeepsContent(t: Table, u: Table, a: Row)
    requires InsertStep(t, u) && Survives(t, a)
    ensures Survives(u, a)
  {
    var r :| 0 <= r < |t| && Keeps(t[r], a);
    assert u[r] == u[..|t|][r];
    assert Keeps(u[r], a);
  }

  lemma CleanupKeepsContent(t: Table, u: Table, a: Row)
    requires Invariant(t) && CleanupStep(t, u) && Survives(t, a)
    ensures Survives(u, a)
  {
    var r :| 0 <= r < |t| && Keeps(t[r], a);
    var p :| 0 <= p < |t| && Covered(t[p]) && u == Without(t, p);
    if t[r] != t[p] {
      WithoutKeeps(t, p, t[r]);
      var k :| 0 <= k < |u| && u[k] == t[r];
      assert Keeps(u[k], a);
    } else {
      var q :| 0 <= q < |t| && Root(t[q], t[r]);
      if Extends(t[r], a) { ExtendsTransitive(t[q], t[r], a); }
      assert Root(t[q], a);
      CleanupKeepsRoot(t, u, a);
      RootSurvives(u, a);
    }
  }

  lemma BatchKeepsContent(t: Table, batch: set<int>, u: Table, a: Row)
    requires BatchStep(t, batch, u) && Survives(t, a)
    ensures Survives(u, a)
  {
    var r :| 0 <= r < |t| && Keeps(t[r], a);
    assert MarkedRow(t, batch, r, u[r].(analyzed := t[r].analyzed));
    assert Keeps(u[r], a);
  }

  lemma StepKeepsContent(t: Table, u: Table, a: Row)
    requires Invariant(t) && Step(t, u) && Survives(t, a)
    ensures Survives(u, a)
  {
    if InsertStep(t, u) {
      InsertKeepsContent(t, u, a);
    } else if CleanupStep(t, u) {
      CleanupKeepsContent(t, u, a);
    } else {
      var batch :| BatchStep(t, batch, u);
      BatchKeepsContent(t, batch, u, a);
    }
  }

  /**
  No run of inserts, batches and covered-only cleanups loses content: every row the table ever held is
  either still there, or its trajectory is a proper prefix of one that is, under the same user and key.
  */
  lemma {:induction false} NothingIsLost(h: seq<Table>, k: nat, m: nat, i: nat)
    requires Run(h) && k <= m < |h| && i < |h[k]|
    ensures Survives(h[m], h[k][i])
  {
    var a := h[k][i];
    if k == m {
      assert Keeps(h[m][i], a);
    } else {
      NothingIsLost(h, k, m - 1, i);
      RunStep(h, m - 1);
      StepKeepsContent(h[m - 1], h[m], a);
    }
  }

  function AllPositions(n: nat): (all: set<int>)
    ensures forall p :: p in all <==> 0 <= p < n
  {
    if n == 0 then {} else AllPositions(n - 1) + {n - 1}
  }

  /** `i` is the largest-id row of the table that extends `j`. */
  ghost predicate LargestExtension(t: Table, i: int, j: int) {
    && 0 <= i < |t| && 0 <= j < |t| && Extends(t[i], t[j])
    && forall k :: 0 <= k < |t| && Extends(t[k], t[j]) ==> k <= i
  }

  lemma LargestExtensionIsCoverer(t: Table, i: int, j: int)
    requires Fresh(t)
    ensures LargestExtension(t, i, j) <==> LargestCoverer(t, AllPositions(|t|), i, j)
  {
    var all := AllPositions(|t|);
    forall k
      ensures CanCover(t, all, k, j) <==> 0 <= k < |t| && 0 <= j < |t| && Extends(t[k], t[j])
    {
    }
  }

  /**
  One batch over a whole fresh table: a covered row names the largest-id row that extends it, and the
  row it names is itself uncovered.
  */
  lemma OneBatchNamesLargest(t: Table, u: Table, i: nat, j: nat)
    requires WellFormed(t) && Fresh(t) && BatchStep(t, AllPositions(|t|), u) && LargestExtension(t, i, j)
    ensures u[j].coveredBy == t[i].conversationId && !Covered(u[i])
  {
    var all := AllPositions(|t|);
    LargestExtensionIsCoverer(t, i, j);
    WinnerStaysUncovered(t, all, j, i, u[i].(analyzed := t[i].analyzed));
    var now := u[j].(analyzed := t[j].analyzed);
    assert MarkedRow(t, all, j, now);
    assert CanCover(t, all, i, j);
    var k :| LargestCoverer(t, all, k, j) && now.coveredBy == t[k].conversationId;
    assert k == i;
  }

  /** The same batch covers exactly the rows that some row extends. */
  lemma OneBatchCoversExactly(t: Table, u: Table, j: nat)
    requires WellFormed(t) && Fresh(t) && j < |t| && BatchStep(t, AllPositions(|t|), u)
    ensures Covered(u[j]) <==> Extended(t, j)
  {
    FreshInvariant(t);
    BatchPreservesInvariant(t, AllPositions(|t|), u);
    AnalyzedMeaning(u, j);
    ExtendedTransfers(t, u, j);
  }
}
