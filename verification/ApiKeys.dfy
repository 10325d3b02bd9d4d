/**
The API key service: a table of records, one for each SafetyHub key, beside a provider that hands out
upstream keys. A database transaction and a provider call are one step each, so a run is an interleaving of
the service calls of many clients. Ciphertexts stand for the text they decrypt to.
*/
module ApiKeys {
  import opened Options
  import opened Text

  /** `hash` is the digest of a stripped key; `provider` the configured provider's name, if there is one. */
  datatype Service = Service(hash: string -> string, provider: Option<string>)

  datatype Record = Record(
    keyHash: string,
    keyPrefix: string,
    name: string,
    owner: string,
    revoked: bool,
    providerName: string,
    upstreamId: Option<string>,
    upstreamKey: string,
    safetyHubKey: string,
    decoupled: bool)

  type Table = map<string, Record>

  datatype Payload = Payload(name: string, owner: string, upstreamKey: string, reuse: bool, providerName: string)

  /** An upstream key that a create has obtained and not stored yet. */
  datatype Order = Order(payload: Payload, secret: string)

  /** `gone`: the provider withdrew the key. `raises`: its answer was an exception. */
  datatype Withdrawal = Withdrawal(gone: bool, raises: bool)

  /**
  `live` are the ids of the upstream keys that the provider handed out and did not withdraw. `cleared` are
  the records whose revocation has passed the provider. Record ids and upstream ids are never used twice.
  */
  datatype State = State(
    records: Table,
    live: set<string>,
    pending: map<string, Order>,
    cleared: set<string>,
    usedIds: set<string>,
    usedKeys: set<string>)

  const INITIAL := State(map[], {}, map[], {}, {}, {})

  datatype Reply = Stored(record: Record) | Duplicate | NoUniqueKey | StoreFailed | Refused

  /** `result`: how the transaction that would store a record ended, which `Answers` ties to the table. */
  datatype Action =
    | Create(id: string, payload: Payload, draws: seq<string>, commits: bool, result: Reply)
    | ProviderCreate(payload: Payload, keyId: string, secret: Option<string>)
    | ProviderStore(keyId: string, id: string, draws: seq<string>, commits: bool, result: Reply, reply: Withdrawal)
    | RevokeUpstream(id: string, reply: Withdrawal)
    | RevokeStore(id: string)
    | Delete(id: string)
    | Update(id: string, name: string, owner: string)
    | Replace(id: string, newKey: string)

  // ---------- Keys and records ----------

  /** The provider is asked to take back exactly the keys that it handed out under its own name. */
  predicate AskedBack(svc: Service, r: Record, reply: Withdrawal, done: bool, before: set<string>, after: set<string>) {
    if svc.provider != Some(r.providerName) || r.upstreamId == None || |r.upstreamId.value| == 0 then done && after == before
    else done == !reply.raises && after == if reply.gone then before - {r.upstreamId.value} else before
  }

  predicate TooShort(key: string) {
    |key| < 8
  }

  function Hash(svc: Service, key: string): string {
    svc.hash(Strip(key))
  }

  function Prefix(key: string): string {
    var k := Strip(key);
    if |k| <= 12 then k else k[..12]
  }

  function WithHash(records: Table, hash: string): set<string> {
    set id | id in records && records[id].keyHash == hash
  }

  function WithPrefix(records: Table, prefix: string): set<string> {
    set id | id in records && records[id].keyPrefix == prefix
  }

  function Generated(token: string): string {
    "sk-sh-" + token
  }

  predicate Unused(svc: Service, records: Table, key: string) {
    WithHash(records, Hash(svc, key)) == {}
  }

  /** The first drawn key that no record has. */
  function Draw(svc: Service, records: Table, draws: seq<string>): (key: Option<string>)
    ensures key.Some? ==> Unused(svc, records, key.value)
  {
    if draws == [] then None
    else if Unused(svc, records, Generated(draws[0])) then Some(Generated(draws[0]))
    else Draw(svc, records, draws[1..])
  }

  function Build(svc: Service, p: Payload, upstream: string, safetyHub: string, upstreamId: Option<string>): Record {
    Record(Hash(svc, safetyHub), Prefix(safetyHub), p.name, p.owner, false,
           if p.providerName == "" then "passthrough" else p.providerName,
           upstreamId, upstream, safetyHub, safetyHub != upstream)
  }

  function Stripped(p: Payload): Payload {
    p.(name := Strip(p.name), owner := Strip(p.owner), providerName := Strip(p.providerName))
  }

  /** `_create_record` in one transaction; the table's unique index on hashes answers a race as the query does. */
  function Store(svc: Service, records: Table, p: Payload, upstream: string, upstreamId: Option<string>,
                 draws: seq<string>, commits: bool): Reply
  {
    var key := if p.reuse && upstream != "" then Some(upstream) else Draw(svc, records, draws);
    if key == None then NoUniqueKey
    else if !Unused(svc, records, key.value) then Duplicate
    else if !commits then StoreFailed
    else Stored(Build(svc, p, upstream, key.value, upstreamId))
  }

  /** Whether a revocation goes to the provider. */
  predicate Linked(svc: Service, r: Record) {
    svc.provider == Some(r.providerName) && r.upstreamId.Some? && r.upstreamId.value != ""
  }

  function WithUpstream(r: Record, key: string): Record {
    r.(upstreamKey := key, decoupled := true)
  }

  function Renamed(r: Record, name: string, owner: string): Record {
    r.(name := if name == "" then r.name else name, owner := if owner == "" then r.owner else owner)
  }

  /** `create` in manual mode. */
  function ManualReply(svc: Service, records: Table, p: Payload, draws: seq<string>, commits: bool): Reply {
    var upstream := Strip(p.upstreamKey);
    if TooShort(upstream) then Refused else Store(svc, records, Stripped(p), upstream, None, draws, commits)
  }

  lemma ManualIs(svc: Service, records: Table, p: Payload, upstream: string, draws: seq<string>, commits: bool)
    requires upstream == Strip(p.upstreamKey)
    ensures ManualReply(svc, records, p, draws, commits)
            == if TooShort(upstream) then Refused else Store(svc, records, Stripped(p), upstream, None, draws, commits)
  {
  }

  /** What `create_from_provider` stores for a key that it obtained. */
  function OrderReply(svc: Service, records: Table, keyId: string, o: Order, draws: seq<string>, commits: bool): Reply
    requires svc.provider.Some?
  {
    Store(svc, records, ForProvider(o, svc.provider.value), o.secret, Some(keyId), draws, commits)
  }

  function ForProvider(o: Order, providerName: string): Payload {
    Stripped(o.payload.(upstreamKey := o.secret, providerName := providerName))
  }

  // ---------- Steps ----------

  function Inserted(s: State, id: string, reply: Reply): State {
    if reply.Stored? then s.(records := s.records[id := reply.record], usedIds := s.usedIds + {id}) else s
  }

  predicate BadSecret(secret: Option<string>) {
    secret == None || TooShort(secret.value)
  }

  function Obtained(s: State, p: Payload, keyId: string, secret: Option<string>): State {
    s.(live := s.live + {keyId}, usedKeys := s.usedKeys + {keyId},
       pending := if BadSecret(secret) then s.pending else s.pending[keyId := Order(p, secret.value)])
  }

  /** The `try` of a provider create and, when it fails, its compensation. */
  function Finished(s: State, keyId: string, id: string, result: Reply, reply: Withdrawal): State {
    var t := Inserted(s.(pending := s.pending - {keyId}), id, result);
    if !result.Stored? && keyId != "" && reply.gone then t.(live := t.live - {keyId}) else t
  }

  function Cleared(svc: Service, s: State, id: string, reply: Withdrawal): State
    requires id in s.records
  {
    if !Linked(svc, s.records[id]) then s.(cleared := s.cleared + {id})
    else
      s.(live := if reply.gone then s.live - {s.records[id].upstreamId.value} else s.live,
         cleared := if reply.raises then s.cleared else s.cleared + {id})
  }

  function Changed(s: State, id: string, r: Record): State {
    s.(records := s.records[id := r])
  }

  function Revoked(s: State, id: string): State {
    if id in s.records then Changed(s, id, s.records[id].(revoked := true)) else s
  }

  function Deleted(s: State, id: string): State {
    if id in s.records && s.records[id].revoked then s.(records := s.records - {id}) else s
  }

  function Updated(s: State, id: string, name: string, owner: string): State {
    if id in s.records then Changed(s, id, Renamed(s.records[id], name, owner)) else s
  }

  function Rekeyed(s: State, id: string, key: string): State {
    if !TooShort(key) && id in s.records then Changed(s, id, WithUpstream(s.records[id], key)) else s
  }

  predicate Fits(svc: Service, s: State, a: Action) {
    match a
    case Create(id, _, draws, _, _) => id !in s.usedIds && |draws| == 10
    case ProviderCreate(_, keyId, _) => svc.provider.Some? && keyId !in s.usedKeys
    case ProviderStore(keyId, id, draws, _, _, _) => svc.provider.Some? && keyId in s.pending && id !in s.usedIds && |draws| == 10
    case RevokeUpstream(id, _) => id in s.records
    case RevokeStore(id) => id in s.cleared
    case _ => true
  }

  predicate Answers(svc: Service, s: State, a: Action)
    requires Fits(svc, s, a)
  {
    match a
    case Create(_, p, draws, commits, result) => result == ManualReply(svc, s.records, p, draws, commits)
    case ProviderStore(keyId, _, draws, commits, result, _) =>
      result == OrderReply(svc, s.records, keyId, s.pending[keyId], draws, commits)
    case _ => true
  }

  predicate Enabled(svc: Service, s: State, a: Action) {
    Fits(svc, s, a) && Answers(svc, s, a)
  }

  function Apply(svc: Service, s: State, a: Action): State
    requires Fits(svc, s, a)
  {
    match a
    case Create(id, _, _, _, result) => Inserted(s, id, result)
    case ProviderCreate(p, keyId, secret) => Obtained(s, p, keyId, secret)
    case ProviderStore(keyId, id, _, _, result, reply) => Finished(s, keyId, id, result, reply)
    case RevokeUpstream(id, reply) => Cleared(svc, s, id, reply)
    case RevokeStore(id) => Revoked(s, id)
    case Delete(id) => Deleted(s, id)
    case Update(id, name, owner) => Updated(s, id, Strip(name), Strip(owner))
    case Replace(id, newKey) => Rekeyed(s, id, Strip(newKey))
  }

  ghost predicate Step(svc: Service, s: State, t: State) {
    exists a: Action :: Enabled(svc, s, a) && t == Apply(svc, s, a)
  }

  ghost predicate Run(svc: Service, h: seq<State>) {
    |h| > 0 && h[0] == INITIAL && forall k :: 0 <= k < |h| - 1 ==> Step(svc, h[k], h[k + 1])
  }

  // ---------- What every run keeps ----------

  predicate RecordOk(svc: Service, r: Record) {
    && r.keyHash == Hash(svc, r.safetyHubKey) && r.keyPrefix == Prefix(r.safetyHubKey)
    && (!r.decoupled ==> r.upstreamKey == r.safetyHubKey)
  }

  predicate SoundAt(svc: Service, s: State, id: string) {
    id in s.records ==> RecordOk(svc, s.records[id])
  }

  /** A record's id is used up, and its upstream key was obtained by a create that has finished. */
  predicate SettledAt(s: State, id: string) {
    id in s.records ==>
      && id in s.usedIds
      && var k := s.records[id].upstreamId; k.Some? ==> k.value in s.usedKeys && k.value !in s.pending
  }

  predicate Apart(r: Record, q: Record) {
    r.keyHash != q.keyHash && (r.upstreamId.Some? ==> r.upstreamId != q.upstreamId)
  }

  predicate ApartAt(s: State, id: string, jd: string) {
    id in s.records && jd in s.records && id != jd ==> Apart(s.records[id], s.records[jd])
  }

  predicate Registered(s: State) {
    s.pending.Keys <= s.usedKeys && s.live <= s.usedKeys && s.cleared <= s.usedIds
  }

  ghost predicate Invariant(svc: Service, s: State) {
    && (forall id :: SoundAt(svc, s, id))
    && (forall id :: SettledAt(s, id))
    && (forall id, jd :: ApartAt(s, id, jd))
    && Registered(s)
  }

  /** A record changed in place keeps its identity. */
  predicate SameIdentity(r: Record, q: Record) {
    r.keyHash == q.keyHash && r.keyPrefix == q.keyPrefix && r.safetyHubKey == q.safetyHubKey
    && r.upstreamId == q.upstreamId && r.providerName == q.providerName
  }

  predicate Succeeds(r: Record, q: Record) {
    && SameIdentity(r, q)
    && (r.revoked ==> q.revoked) && (r.decoupled ==> q.decoupled)
    && (r.upstreamKey != q.upstreamKey ==> q.decoupled)
  }

  /** A step changes, keeps or, if it was revoked, removes a record. */
  lemma StepSucceeds(svc: Service, s: State, a: Action, id: string)
    requires SettledAt(s, id) && Fits(svc, s, a) && id in s.records
    ensures var t := Apply(svc, s, a);
            && id in t.usedIds
            && if id in t.records then Succeeds(s.records[id], t.records[id]) else s.records[id].revoked && a == Delete(id)
  {
    match a
    case Create(i, _, _, _, result) => InsertSucceeds(s, i, result, id);
    case ProviderStore(keyId, i, _, _, result, _) => InsertSucceeds(s.(pending := s.pending - {keyId}), i, result, id);
    case ProviderCreate(_, _, _) =>
    case RevokeUpstream(_, _) =>
    case RevokeStore(i) => RevokeSucceeds(s, i, id);
    case Delete(_) =>
    case Update(i, name, owner) => UpdateSucceeds(s, i, Strip(name), Strip(owner), id);
    case Replace(i, newKey) => ReplaceSucceeds(s, i, Strip(newKey), id);
  }

  lemma InsertSucceeds(s: State, i: string, result: Reply, id: string)
    requires id in s.records && id in s.usedIds && i !in s.usedIds
    ensures var t := Inserted(s, i, result); id in t.usedIds && id in t.records && t.records[id] == s.records[id]
  {
  }

  lemma ChangeSucceeds(s: State, i: string, r: Record, id: string)
    requires id in s.records && i in s.records && Succeeds(s.records[i], r)
    ensures id in Changed(s, i, r).records && Succeeds(s.records[id], Changed(s, i, r).records[id])
    ensures Changed(s, i, r).usedIds == s.usedIds
  {
  }

  lemma RevokeSucceeds(s: State, i: string, id: string)
    requires id in s.records && id in s.usedIds
    ensures var t := Revoked(s, i); id in t.records && id in t.usedIds && Succeeds(s.records[id], t.records[id])
  {
    if i in s.records { ChangeSucceeds(s, i, s.records[i].(revoked := true), id); }
  }

  lemma UpdateSucceeds(s: State, i: string, name: string, owner: string, id: string)
    requires id in s.records && id in s.usedIds
    ensures var t := Updated(s, i, name, owner); id in t.records && id in t.usedIds && Succeeds(s.records[id], t.records[id])
    ensures Updated(s, i, name, owner).records[id].revoked == s.records[id].revoked
  {
    if i in s.records { ChangeSucceeds(s, i, Renamed(s.records[i], name, owner), id); }
  }

  lemma ReplaceSucceeds(s: State, i: string, key: string, id: string)
    requires id in s.records && id in s.usedIds
    ensures var t := Rekeyed(s, i, key); id in t.records && id in t.usedIds && Succeeds(s.records[id], t.records[id])
    ensures Rekeyed(s, i, key).records[id].revoked == s.records[id].revoked
  {
    if i in s.records { ChangeSucceeds(s, i, WithUpstream(s.records[i], key), id); }
  }

  /** A record that a step brings in. */
  predicate Brings(a: Action, id: string) {
    (a.Create? || a.ProviderStore?) && a.id == id && a.result.Stored?
  }

  lemma StepBrings(svc: Service, s: State, a: Action, id: string)
    requires Fits(svc, s, a) && id !in s.records
    ensures id in Apply(svc, s, a).records <==> Brings(a, id)
    ensures Brings(a, id) ==> id !in s.usedIds && Apply(svc, s, a).records[id] == a.result.record
    ensures id in s.usedIds || Brings(a, id) ==> id in Apply(svc, s, a).usedIds
  {
  }

  /** What a stored record is like, and that no other record has its hash. */
  lemma StoredIsNew(svc: Service, records: Table, p: Payload, upstream: string, upstreamId: Option<string>,
                    draws: seq<string>, commits: bool, r: Record, jd: string)
    requires Store(svc, records, p, upstream, upstreamId, draws, commits) == Stored(r)
    ensures RecordOk(svc, r) && r.upstreamId == upstreamId && !r.revoked
    ensures jd in records ==> records[jd].keyHash != r.keyHash
  {
    assert jd !in WithHash(records, r.keyHash);
  }

  lemma BroughtIsNew(svc: Service, s: State, a: Action, id: string, jd: string)
    requires Enabled(svc, s, a) && Brings(a, id)
    ensures RecordOk(svc, a.result.record) && !a.result.record.revoked
    ensures a.result.record.upstreamId == if a.Create? then None else Some(a.keyId)
    ensures jd in s.records ==> s.records[jd].keyHash != a.result.record.keyHash
  {
    if a.Create? {
      StoredIsNew(svc, s.records, Stripped(a.payload), Strip(a.payload.upstreamKey), None, a.draws, a.commits, a.result.record, jd);
    } else {
      var o := s.pending[a.keyId];
      StoredIsNew(svc, s.records, ForProvider(o, svc.provider.value), o.secret, Some(a.keyId), a.draws, a.commits, a.result.record, jd);
    }
  }

  lemma StaysSound(svc: Service, s: State, a: Action, id: string)
    requires Enabled(svc, s, a) && SoundAt(svc, s, id) && SettledAt(s, id)
    ensures SoundAt(svc, Apply(svc, s, a), id)
  {
    if id in s.records {
      StepSucceeds(svc, s, a, id);
    } else {
      StepBrings(svc, s, a, id);
      if Brings(a, id) { BroughtIsNew(svc, s, a, id, id); }
    }
  }

  lemma StaysSettled(svc: Service, s: State, a: Action, id: string)
    requires Enabled(svc, s, a) && SettledAt(s, id) && Registered(s)
    ensures SettledAt(Apply(svc, s, a), id)
  {
    KeysUsed(svc, s, a);
    if id in s.records {
      StepSucceeds(svc, s, a, id);
    } else {
      StepBrings(svc, s, a, id);
      if Brings(a, id) { BroughtIsNew(svc, s, a, id, id); }
    }
  }

  /** Only a provider's create begins a create in progress, with a key never used before. */
  lemma KeysUsed(svc: Service, s: State, a: Action)
    requires Fits(svc, s, a)
    ensures s.usedKeys <= Apply(svc, s, a).usedKeys && s.usedIds <= Apply(svc, s, a).usedIds
    ensures forall k :: k in Apply(svc, s, a).pending ==> k in s.pending || k !in s.usedKeys
    ensures a.ProviderStore? ==> a.keyId !in Apply(svc, s, a).pending
  {
  }

  lemma StaysApart(svc: Service, s: State, a: Action, id: string, jd: string)
    requires Enabled(svc, s, a) && ApartAt(s, id, jd) && SettledAt(s, id) && SettledAt(s, jd)
    ensures ApartAt(Apply(svc, s, a), id, jd)
  {
    if id in s.records { StepSucceeds(svc, s, a, id); } else { StepBrings(svc, s, a, id); }
    if jd in s.records { StepSucceeds(svc, s, a, jd); } else { StepBrings(svc, s, a, jd); }
    if Brings(a, id) { BroughtIsNew(svc, s, a, id, jd); }
    if Brings(a, jd) { BroughtIsNew(svc, s, a, jd, id); }
  }

  lemma StepRegisters(svc: Service, s: State, a: Action)
    requires Registered(s) && Fits(svc, s, a) && (a.RevokeUpstream? ==> SettledAt(s, a.id))
    ensures Registered(Apply(svc, s, a))
  {
  }

  lemma StepPreservesInvariant(svc: Service, s: State, a: Action)
    requires Invariant(svc, s) && Enabled(svc, s, a)
    ensures Invariant(svc, Apply(svc, s, a))
  {
    var t := Apply(svc, s, a);
    if a.RevokeUpstream? { assert SettledAt(s, a.id); }
    StepRegisters(svc, s, a);
    forall id ensures SoundAt(svc, t, id) && SettledAt(t, id) {
      assert SoundAt(svc, s, id) && SettledAt(s, id);
      StaysSound(svc, s, a, id);
      StaysSettled(svc, s, a, id);
    }
    forall id, jd ensures ApartAt(t, id, jd) {
      assert ApartAt(s, id, jd) && SettledAt(s, id) && SettledAt(s, jd);
      StaysApart(svc, s, a, id, jd);
    }
  }

  lemma {:induction false} ReachableInvariant(svc: Service, h: seq<State>, k: nat)
    requires Run(svc, h) && k < |h|
    ensures Invariant(svc, h[k])
  {
    if k > 0 {
      ReachableInvariant(svc, h, k - 1);
      var a := LastAction(svc, h, k);
      StepPreservesInvariant(svc, h[k - 1], a);
    }
  }

  lemma LastAction(svc: Service, h: seq<State>, k: nat) returns (a: Action)
    requires Run(svc, h) && 0 < k < |h|
    ensures Enabled(svc, h[k - 1], a) && h[k] == Apply(svc, h[k - 1], a)
  {
    assert Step(svc, h[k - 1], h[k - 1 + 1]);
    a :| Enabled(svc, h[k - 1], a) && h[k] == Apply(svc, h[k - 1], a);
  }

  /**
  In every reachable table no two records have the same SafetyHub key, up to surrounding whitespace, each
  hash is its key's, and a record that is not decoupled sends upstream the key its client sent.
  */
  lemma KeysDistinct(svc: Service, h: seq<State>, k: nat, id: string, jd: string)
    requires Run(svc, h) && k < |h| && id in h[k].records && jd in h[k].records
    ensures id != jd ==> Strip(h[k].records[id].safetyHubKey) != Strip(h[k].records[jd].safetyHubKey)
    ensures h[k].records[id].keyHash == svc.hash(Strip(h[k].records[id].safetyHubKey))
    ensures !h[k].records[id].decoupled ==> h[k].records[id].upstreamKey == h[k].records[id].safetyHubKey
  {
    ReachableInvariant(svc, h, k);
    assert SoundAt(svc, h[k], id) && SoundAt(svc, h[k], jd) && ApartAt(h[k], id, jd);
  }

  // ---------- What a record keeps for life ----------

  /** What one step means for one id. */
  predicate Onward(s: State, t: State, id: string) {
    && (id in s.records && id in t.records ==> Succeeds(s.records[id], t.records[id]))
    && (id in s.records && id !in t.records ==> s.records[id].revoked)
    && (id in s.usedIds ==> id in t.usedIds && (id !in s.records ==> id !in t.records))
    && (id in s.records ==> id in s.usedIds)
  }

  lemma StepOnward(svc: Service, s: State, t: State, id: string)
    requires Step(svc, s, t) && SettledAt(s, id)
    ensures Onward(s, t, id)
  {
    var a: Action :| Enabled(svc, s, a) && t == Apply(svc, s, a);
    if id in s.records {
      StepSucceeds(svc, s, a, id);
    } else {
      StepBrings(svc, s, a, id);
    }
  }

  lemma {:induction false} OnwardForLife(h: seq<State>, i: nat, j: nat, id: string)
    requires i <= j < |h| && id in h[i].records && id in h[i].usedIds
    requires forall k :: i <= k < j ==> Onward(h[k], h[k + 1], id)
    ensures id in h[j].records ==> Succeeds(h[i].records[id], h[j].records[id])
    ensures id !in h[j].records ==> exists k :: i <= k < j && id in h[k].records && h[k].records[id].revoked
    ensures id in h[j].usedIds
    decreases j - i
  {
    if i < j {
      OnwardForLife(h, i, j - 1, id);
      assert Onward(h[j - 1], h[j - 1 + 1], id);
    }
  }

  /**
  From any state of a run to any later one: a record that is still there has its hash, SafetyHub key and
  upstream id unchanged, has not gone back from revoked to active or from decoupled to not, and had its
  upstream key changed only by becoming decoupled; one that is not there was revoked when it went, and
  nothing takes its id.
  */
  lemma RecordForLife(svc: Service, h: seq<State>, i: nat, j: nat, id: string)
    requires Run(svc, h) && i <= j < |h| && id in h[i].records
    ensures id in h[j].records ==> Succeeds(h[i].records[id], h[j].records[id])
    ensures id !in h[j].records ==> exists k :: i <= k < j && id in h[k].records && h[k].records[id].revoked
    ensures id in h[j].usedIds
  {
    forall k | 0 <= k < |h|
      ensures SettledAt(h[k], id)
    {
      ReachableInvariant(svc, h, k);
    }
    forall k | i <= k < j
      ensures Onward(h[k], h[k + 1], id)
    {
      assert SettledAt(h[k], id);
      StepOnward(svc, h[k], h[k + 1], id);
    }
    assert SettledAt(h[i], id);
    OnwardForLife(h, i, j, id);
  }

  // ---------- Looking a key up ----------

  ghost predicate Injective(f: string -> string) {
    forall x, y :: f(x) == f(y) ==> x == y
  }

  lemma SingletonUnique(ids: set<string>, x: string, y: string)
    requires |ids| == 1 && x in ids && y in ids
    ensures x == y
  {
    assert |ids - {x}| == 0;
  }

  /** The member of a singleton. */
  function TheOne(ids: set<string>): (id: Option<string>)
    ensures id.Some? <==> |ids| == 1
    ensures id.Some? ==> ids == {id.value}
  {
    if |ids| != 1 then None
    else
      assert exists x :: x in ids by { assert ids != {}; }
      assert forall x, y :: x in ids && y in ids ==> x == y by {
        forall x, y | x in ids && y in ids ensures x == y { SingletonUnique(ids, x, y); }
      }
      var x :| x in ids;
      Some(x)
  }

  /** `find_by_raw_key`; a hash has at most one record. */
  function FindByRawKey(svc: Service, records: Table, raw: string): Option<string> {
    TheOne(WithHash(records, Hash(svc, raw)))
  }

  /** The record that a raw key finds has that key. */
  lemma FoundHasKey(svc: Service, s: State, raw: string, id: string)
    requires Invariant(svc, s) && Injective(svc.hash) && FindByRawKey(svc, s.records, raw) == Some(id)
    ensures id in s.records && Strip(s.records[id].safetyHubKey) == Strip(raw)
  {
    assert id in WithHash(s.records, Hash(svc, raw));
    assert SoundAt(svc, s, id);
  }

  /** A raw key finds a record exactly when it is the record's SafetyHub key, surrounding whitespace aside. */
  lemma FoundByItsKey(svc: Service, h: seq<State>, k: nat, raw: string, id: string)
    requires Run(svc, h) && k < |h| && Injective(svc.hash)
    ensures FindByRawKey(svc, h[k].records, raw) == Some(id)
            <==> id in h[k].records && Strip(h[k].records[id].safetyHubKey) == Strip(raw)
  {
    ReachableInvariant(svc, h, k);
    FoundIff(svc, h[k], raw, id);
  }

  lemma FoundIff(svc: Service, s: State, raw: string, id: string)
    requires Invariant(svc, s) && Injective(svc.hash)
    ensures FindByRawKey(svc, s.records, raw) == Some(id) <==> id in s.records && Strip(s.records[id].safetyHubKey) == Strip(raw)
  {
    if id in s.records && Strip(s.records[id].safetyHubKey) == Strip(raw) {
      FoundItself(svc, s, id);
    } else if FindByRawKey(svc, s.records, raw) == Some(id) {
      FoundHasKey(svc, s, raw, id);
    }
  }

  /** Some record has the key, surrounding whitespace aside. */
  ghost predicate Taken(records: Table, key: string) {
    exists id :: id in records && Strip(records[id].safetyHubKey) == Strip(key)
  }

  lemma UnusedMeansNotTaken(svc: Service, s: State, key: string)
    requires Invariant(svc, s) && Injective(svc.hash)
    ensures Unused(svc, s.records, key) <==> !Taken(s.records, key)
  {
    if id :| id in s.records && Strip(s.records[id].safetyHubKey) == Strip(key) {
      assert SoundAt(svc, s, id);
      assert id in WithHash(s.records, Hash(svc, key));
    }
    if id :| id in WithHash(s.records, Hash(svc, key)) {
      assert SoundAt(svc, s, id);
    }
  }

  lemma StoreExact(svc: Service, records: Table, p: Payload, upstream: string, upstreamId: Option<string>,
                   draws: seq<string>, commits: bool)
    ensures Store(svc, records, p, upstream, upstreamId, draws, commits).Stored? <==>
              && commits
              && if p.reuse && upstream != "" then Unused(svc, records, upstream)
                 else SomeUnused(svc, records, draws)
  {
    DrawExact(svc, records, draws);
  }

  predicate UnusedAt(svc: Service, records: Table, draws: seq<string>, i: nat) {
    i < |draws| && Unused(svc, records, Generated(draws[i]))
  }

  lemma {:induction false} DrawExact(svc: Service, records: Table, draws: seq<string>)
    ensures Draw(svc, records, draws).Some? <==> SomeUnused(svc, records, draws)
  {
    if draws != [] {
      DrawExact(svc, records, draws[1..]);
      if UnusedAt(svc, records, draws, 0) {
      } else if i: nat :| UnusedAt(svc, records, draws, i) {
        assert UnusedAt(svc, records, draws[1..], i - 1);
      } else if i: nat :| UnusedAt(svc, records, draws[1..], i) {
        assert UnusedAt(svc, records, draws, i + 1);
      }
    }
  }

  ghost predicate SomeUnused(svc: Service, records: Table, draws: seq<string>) {
    exists i: nat :: UnusedAt(svc, records, draws, i)
  }

  /** One of the drawn keys is nobody's. */
  ghost predicate SomeFree(records: Table, draws: seq<string>) {
    exists i :: 0 <= i < |draws| && !Taken(records, Generated(draws[i]))
  }

  lemma DrawsAgree(svc: Service, s: State, draws: seq<string>)
    requires Invariant(svc, s) && Injective(svc.hash)
    ensures SomeUnused(svc, s.records, draws) <==> SomeFree(s.records, draws)
  {
    if i: nat :| UnusedAt(svc, s.records, draws, i) {
      UnusedMeansNotTaken(svc, s, Generated(draws[i]));
    }
    if i :| 0 <= i < |draws| && !Taken(s.records, Generated(draws[i])) {
      UnusedMeansNotTaken(svc, s, Generated(draws[i]));
      assert UnusedAt(svc, s.records, draws, i);
    }
  }

  /**
  A manual create stores a record exactly when the key is long enough, the database commits, and the
  SafetyHub key is new: the given one when it is reused, one of ten drawn ones otherwise.
  */
  lemma CreateExact(svc: Service, s: State, p: Payload, draws: seq<string>, commits: bool)
    requires Invariant(svc, s) && Injective(svc.hash) && |draws| == 10
    ensures ManualReply(svc, s.records, p, draws, commits).Stored? <==>
              && |Strip(p.upstreamKey)| >= 8 && commits
              && if p.reuse then !Taken(s.records, p.upstreamKey) else SomeFree(s.records, draws)
  {
    var upstream := Strip(p.upstreamKey);
    StoreExact(svc, s.records, Stripped(p), upstream, None, draws, commits);
    UnusedMeansNotTaken(svc, s, upstream);
    TakenStripped(s.records, p.upstreamKey);
    DrawsAgree(svc, s, draws);
  }

  lemma TakenStripped(records: Table, key: string)
    ensures Taken(records, Strip(key)) <==> Taken(records, key)
  {
    StripIdempotent(key);
  }

  /** The SafetyHub key of a record that was just stored finds it; it is the upstream key when that is reused. */
  lemma CreatedIsFound(svc: Service, s: State, a: Action)
    requires Invariant(svc, s) && Enabled(svc, s, a) && a.Create? && a.result.Stored?
    ensures FindByRawKey(svc, Apply(svc, s, a).records, a.result.record.safetyHubKey) == Some(a.id)
    ensures a.result.record.upstreamKey == Strip(a.payload.upstreamKey)
    ensures a.payload.reuse ==> a.result.record.safetyHubKey == Strip(a.payload.upstreamKey)
  {
    var t := Apply(svc, s, a);
    StepBrings(svc, s, a, a.id) by { assert SettledAt(s, a.id); }
    StepPreservesInvariant(svc, s, a);
    FoundItself(svc, t, a.id);
    StoredKeys(svc, s.records, Stripped(a.payload), Strip(a.payload.upstreamKey), None, a.draws, a.commits, a.result.record);
  }

  lemma FoundItself(svc: Service, s: State, id: string)
    requires Invariant(svc, s) && id in s.records
    ensures FindByRawKey(svc, s.records, s.records[id].safetyHubKey) == Some(id)
  {
    assert SoundAt(svc, s, id);
    OwnHash(svc, s, id);
  }

  lemma StoredKeys(svc: Service, records: Table, p: Payload, upstream: string, upstreamId: Option<string>,
                   draws: seq<string>, commits: bool, r: Record)
    requires Store(svc, records, p, upstream, upstreamId, draws, commits) == Stored(r)
    ensures r.upstreamKey == upstream && (p.reuse && upstream != "" ==> r.safetyHubKey == upstream)
    ensures r.providerName == if p.providerName == "" then "passthrough" else p.providerName
  {
  }

  lemma OwnHash(svc: Service, s: State, id: string)
    requires Invariant(svc, s) && id in s.records
    ensures WithHash(s.records, s.records[id].keyHash) == {id}
  {
    forall jd | jd in WithHash(s.records, s.records[id].keyHash)
      ensures jd == id
    {
      assert ApartAt(s, jd, id);
    }
  }

  /** Draw number `i` is the first whose key no record has. */
  ghost predicate FirstUnused(svc: Service, records: Table, draws: seq<string>, i: nat) {
    UnusedAt(svc, records, draws, i) && forall j: nat :: j < i ==> !UnusedAt(svc, records, draws, j)
  }

  predicate FirstWith(draws: seq<string>, u: string -> bool, i: nat) {
    i < |draws| && u(draws[i]) && forall j :: 0 <= j < i ==> !u(draws[j])
  }

  predicate Draws(g: seq<string> -> Option<string>, u: string -> bool, draws: seq<string>) {
    g(draws) == if draws == [] then None else if u(draws[0]) then Some(Generated(draws[0])) else g(draws[1..])
  }

  /** A search from the front finds the first hit. */
  lemma {:induction false} SearchIsFirst(g: seq<string> -> Option<string>, u: string -> bool, draws: seq<string>) returns (i: nat)
    requires (forall tokens :: Draws(g, u, tokens)) && g(draws).Some?
    ensures FirstWith(draws, u, i) && g(draws) == Some(Generated(draws[i]))
  {
    assert Draws(g, u, draws);
    i := 0;
    if !u(draws[0]) {
      var k := SearchIsFirst(g, u, draws[1..]);
      i := k + 1;
      assert forall j :: 0 < j <= i ==> draws[j] == draws[1..][j - 1];
    }
  }

  lemma UnusedIs(svc: Service, records: Table, u: string -> bool, draws: seq<string>, j: nat)
    requires j < |draws| && u == (token => Unused(svc, records, Generated(token)))
    ensures UnusedAt(svc, records, draws, j) <==> u(draws[j])
  {
  }

  lemma DrawStep(svc: Service, records: Table, g: seq<string> -> Option<string>, u: string -> bool, draws: seq<string>)
    requires u == (token => Unused(svc, records, Generated(token))) && g == (tokens => Draw(svc, records, tokens))
    ensures Draws(g, u, draws)
  {
  }

  lemma DrawIsFirst(svc: Service, records: Table, draws: seq<string>) returns (i: nat)
    requires Draw(svc, records, draws).Some?
    ensures FirstUnused(svc, records, draws, i) && Draw(svc, records, draws) == Some(Generated(draws[i]))
  {
    var u := token => Unused(svc, records, Generated(token));
    var g := tokens => Draw(svc, records, tokens);
    forall tokens ensures Draws(g, u, tokens) {
      DrawStep(svc, records, g, u, tokens);
    }
    i := SearchIsFirst(g, u, draws);
    forall j: nat | j < |draws|
      ensures UnusedAt(svc, records, draws, j) <==> u(draws[j])
    {
      UnusedIs(svc, records, u, draws, j);
    }
  }

  lemma StoredIsBuilt(svc: Service, records: Table, p: Payload, upstream: string, upstreamId: Option<string>,
                      draws: seq<string>, commits: bool, r: Record) returns (key: string)
    requires Store(svc, records, p, upstream, upstreamId, draws, commits) == Stored(r)
    ensures r == Build(svc, p, upstream, key, upstreamId)
    ensures if p.reuse && upstream != "" then key == upstream else Draw(svc, records, draws) == Some(key)
  {
    key := r.safetyHubKey;
  }

  lemma BuiltRecord(svc: Service, p: Payload, upstream: string, key: string, upstreamId: Option<string>)
    ensures var r := Build(svc, p, upstream, key, upstreamId);
            && r.name == p.name && r.owner == p.owner && r.upstreamKey == upstream && r.safetyHubKey == key
            && r.providerName == (if p.providerName == "" then "passthrough" else p.providerName)
            && !r.revoked && r.upstreamId == upstreamId && (r.decoupled <==> key != upstream)
            && r.keyHash == svc.hash(Strip(key)) && IsPrefix(r.keyPrefix, Strip(key))
  {
  }

  /** The record is the payload's, stripped, and active; its hash and prefix are those of its SafetyHub key. */
  predicate Describes(svc: Service, p: Payload, r: Record) {
    && r.name == Strip(p.name) && r.owner == Strip(p.owner) && r.upstreamKey == Strip(p.upstreamKey)
    && r.providerName == (if |Strip(p.providerName)| == 0 then "passthrough" else Strip(p.providerName))
    && !r.revoked && r.upstreamId == None && (r.decoupled <==> r.safetyHubKey != r.upstreamKey)
    && r.keyHash == svc.hash(Strip(r.safetyHubKey)) && IsPrefix(r.keyPrefix, Strip(r.safetyHubKey))
  }

  /**
  The record that a manual create stores: the SafetyHub key is the given one when it is reused, and the first
  unused draw otherwise.
  */
  lemma CreatedRecord(svc: Service, records: Table, p: Payload, draws: seq<string>, commits: bool, r: Record)
    requires ManualReply(svc, records, p, draws, commits) == Stored(r)
    ensures Describes(svc, p, r)
    ensures if p.reuse then r.safetyHubKey == r.upstreamKey
            else exists i: nat :: FirstUnused(svc, records, draws, i) && r.safetyHubKey == Generated(draws[i])
  {
    var upstream, stripped := Strip(p.upstreamKey), Stripped(p);
    var key := StoredIsBuilt(svc, records, stripped, upstream, None, draws, commits, r);
    BuiltRecord(svc, stripped, upstream, key, None);
    if !p.reuse {
      var i := DrawIsFirst(svc, records, draws);
    }
  }

  /** A generated key starts with `sk-sh-`. */
  lemma GeneratedKey(token: string)
    ensures var key := Generated(token);
            |key| == 6 + |token| && key[6..] == token && key[0] == 's' && key[1] == 'k' && key[2] == '-'
            && key[3] == 's' && key[4] == 'h' && key[5] == '-'
  {
  }

  /** The first twelve characters, or all when there are fewer. */
  predicate IsPrefix(prefix: string, key: string) {
    prefix <= key && |prefix| == if |key| < 12 then |key| else 12
  }

  // ---------- Changing a record ----------

  /** The records but one are as before. */
  ghost predicate OnlyChanges(records: Table, later: Table, id: string) {
    later.Keys == records.Keys && forall jd :: jd in records && jd != id ==> later[jd] == records[jd]
  }

  /** Record `id` has the new name and owner, as far as they say anything; nothing else changed. */
  ghost predicate RenamedTo(records: Table, later: Table, id: string, name: string, owner: string)
    requires id in records
  {
    && OnlyChanges(records, later, id)
    && later[id].name == (if |name| == 0 then records[id].name else name)
    && later[id].owner == (if |owner| == 0 then records[id].owner else owner)
    && later[id] == records[id].(name := later[id].name, owner := later[id].owner)
  }

  lemma RenamedRecord(s: State, id: string, name: string, owner: string)
    requires id in s.records
    ensures RenamedTo(s.records, Updated(s, id, name, owner).records, id, name, owner)
  {
  }

  /** An update renames where it says something, blanks aside, and changes nothing else. */
  lemma UpdateExact(svc: Service, s: State, a: Action, name: string, owner: string)
    requires a.Update? && a.id in s.records && name == Strip(a.name) && owner == Strip(a.owner)
    ensures RenamedTo(s.records, Apply(svc, s, a).records, a.id, name, owner)
  {
    RenamedRecord(s, a.id, name, owner);
    assert Apply(svc, s, a) == Updated(s, a.id, name, owner);
  }

  // ---------- Upstream keys that nobody holds ----------

  predicate Refers(s: State, id: string, keyId: string) {
    id in s.records && s.records[id].upstreamId == Some(keyId)
  }

  /** A live upstream key that no record refers to and no create in progress holds. */
  ghost predicate Orphan(s: State, keyId: string) {
    keyId in s.live && keyId !in s.pending && forall id :: !Refers(s, id, keyId)
  }

  /** The ways a step leaves an upstream key behind. */
  predicate Leaves(s: State, a: Action, keyId: string)
  {
    match a
    case ProviderCreate(_, k, secret) => k == keyId && (secret == None || |secret.value| < 8)
    case ProviderStore(k, _, _, _, result, reply) =>
      k == keyId && keyId in s.live && !result.Stored? && (keyId == "" || !reply.gone)
    case Delete(id) => Refers(s, id, keyId) && s.records[id].revoked && keyId in s.live
    case _ => false
  }

  /** References come from finished provider creates alone, and go with deletions alone. */
  lemma References(svc: Service, s: State, a: Action, keyId: string, id: string)
    requires SettledAt(s, id) && Enabled(svc, s, a)
    ensures Refers(Apply(svc, s, a), id, keyId) <==>
              || (Refers(s, id, keyId) && !(a == Delete(id) && s.records[id].revoked))
              || (a.ProviderStore? && a.keyId == keyId && Brings(a, id))
  {
    if id in s.records {
      StepSucceeds(svc, s, a, id);
    } else {
      StepBrings(svc, s, a, id);
      if Brings(a, id) { BroughtIsNew(svc, s, a, id, id); }
    }
  }

  lemma LiveObtained(s: State, p: Payload, keyId: string, secret: Option<string>, k: string)
    ensures var t := Obtained(s, p, keyId, secret);
            if k == keyId then k in t.live && (!BadSecret(secret) ==> k in t.pending)
            else (k in t.pending <==> k in s.pending) && (k in t.live <==> k in s.live)
    ensures keyId !in s.pending && BadSecret(secret) ==> keyId !in Obtained(s, p, keyId, secret).pending
  {
  }

  lemma LiveFinished(s: State, keyId: string, id: string, result: Reply, reply: Withdrawal, k: string)
    ensures var t := Finished(s, keyId, id, result, reply);
            if k == keyId then
              && k !in t.pending
              && (k in t.live <==> (k in s.live && (result.Stored? || k == "" || !reply.gone)))
            else (k in t.pending <==> k in s.pending) && (k in t.live <==> k in s.live)
  {
  }

  predicate ObtainsKey(a: Action, keyId: string) {
    a.ProviderCreate? && a.keyId == keyId
  }

  predicate StoresKey(a: Action, keyId: string) {
    a.ProviderStore? && a.keyId == keyId
  }

  /** What a step does to the set of live keys and to the creates in progress. */
  lemma LiveKeys(svc: Service, s: State, a: Action, keyId: string)
    requires Registered(s) && Fits(svc, s, a)
    ensures var t := Apply(svc, s, a);
            && (ObtainsKey(a, keyId) ==> keyId in t.live && (keyId in t.pending <==> !BadSecret(a.secret)))
            && (StoresKey(a, keyId) ==>
                  && keyId !in t.pending
                  && (keyId in t.live <==> (keyId in s.live && (a.result.Stored? || keyId == "" || !a.reply.gone))))
            && (!ObtainsKey(a, keyId) && !StoresKey(a, keyId) ==>
                  (keyId in t.pending <==> keyId in s.pending) && (keyId in t.live ==> keyId in s.live))
            && (a.Delete? ==> t.live == s.live)
  {
    match a
    case ProviderCreate(p, k, secret) => LiveObtained(s, p, k, secret, keyId);
    case ProviderStore(k, id, _, _, result, reply) => LiveFinished(s, k, id, result, reply, keyId);
    case _ =>
  }

  /**
  A step orphans an upstream key in exactly three ways: the provider's secret is missing or too short,
  because the check comes before the compensation; a failed create's compensation does not withdraw the
  key; or a revoked record is deleted whose key was never withdrawn.
  */
  lemma OrphanedExactly(svc: Service, s: State, a: Action, keyId: string)
    requires Invariant(svc, s) && Enabled(svc, s, a) && !Orphan(s, keyId)
    ensures Orphan(Apply(svc, s, a), keyId) <==> Leaves(s, a, keyId)
  {
    var t := Apply(svc, s, a);
    LiveKeys(svc, s, a, keyId);
    if Leaves(s, a, keyId) {
      if a.Delete? { assert SettledAt(s, a.id); }
      forall id ensures !Refers(t, id, keyId) {
        LeftUnreferred(svc, s, a, keyId, id);
      }
    } else if Orphan(t, keyId) {
      NotLeft(svc, s, a, keyId);
    }
  }

  lemma LeftUnreferred(svc: Service, s: State, a: Action, keyId: string, id: string)
    requires Invariant(svc, s) && Enabled(svc, s, a) && Leaves(s, a, keyId)
    ensures !Refers(Apply(svc, s, a), id, keyId)
  {
    assert SettledAt(s, id);
    References(svc, s, a, keyId, id);
    if a.Delete? { assert ApartAt(s, a.id, id); }
  }

  lemma NotLeft(svc: Service, s: State, a: Action, keyId: string)
    requires Invariant(svc, s) && Enabled(svc, s, a) && !Orphan(s, keyId) && Orphan(Apply(svc, s, a), keyId)
    ensures Leaves(s, a, keyId)
  {
    var t := Apply(svc, s, a);
    LiveKeys(svc, s, a, keyId);
    if StoresKey(a, keyId) {
      assert SettledAt(s, a.id);
      References(svc, s, a, keyId, a.id);
      assert !Refers(t, a.id, keyId);
    } else if !ObtainsKey(a, keyId) {
      var id :| Refers(s, id, keyId);
      assert SettledAt(s, id);
      References(svc, s, a, keyId, id);
      assert !Refers(t, id, keyId);
    }
  }

  /** It happens: a provider that hands out a key without its secret leaves it behind at once. */
  lemma OrphanReachable(svc: Service, p: Payload, keyId: string)
    requires svc.provider.Some?
    ensures var a := ProviderCreate(p, keyId, None);
            && Enabled(svc, INITIAL, a)
            && Run(svc, [INITIAL, Apply(svc, INITIAL, a)]) && Orphan(Apply(svc, INITIAL, a), keyId)
  {
    var a := ProviderCreate(p, keyId, None);
    var t := Apply(svc, INITIAL, a);
    assert Step(svc, INITIAL, t);
    assert forall id :: !Refers(t, id, keyId);
  }

  /** The provider keeps its word: usable secrets, ids that are not empty, and a withdrawal that it confirms is done. */
  predicate Kept(a: Action) {
    match a
    case ProviderCreate(_, keyId, secret) => keyId != "" && secret.Some? && |secret.value| >= 8
    case ProviderStore(_, _, _, _, _, reply) => reply.gone
    case RevokeUpstream(_, reply) => !reply.raises ==> reply.gone
    case _ => true
  }

  /** The provider's name is one that a record can store. */
  predicate NameKept(svc: Service) {
    svc.provider.Some? ==> svc.provider.value != "" && Strip(svc.provider.value) == svc.provider.value
  }

  ghost predicate KeptStep(svc: Service, s: State, t: State) {
    exists a: Action :: Kept(a) && Enabled(svc, s, a) && t == Apply(svc, s, a)
  }

  ghost predicate KeptRun(svc: Service, h: seq<State>) {
    |h| > 0 && h[0] == INITIAL && forall k :: 0 <= k < |h| - 1 ==> KeptStep(svc, h[k], h[k + 1])
  }

  /** A record with an upstream id is the provider's, and once its revocation passed the provider the key is gone. */
  predicate WithdrawnAt(svc: Service, s: State, id: string) {
    id in s.records ==>
      var r := s.records[id];
      && (r.revoked ==> id in s.cleared)
      && (r.upstreamId.Some? ==> Linked(svc, r) && (id in s.cleared ==> r.upstreamId.value !in s.live))
  }

  ghost predicate Accounted(svc: Service, s: State) {
    && Invariant(svc, s)
    && (forall keyId :: !Orphan(s, keyId))
    && (forall id :: WithdrawnAt(svc, s, id))
    && "" !in s.usedKeys
  }

  lemma StoredForProvider(svc: Service, s: State, a: Action)
    requires NameKept(svc) && Enabled(svc, s, a) && a.ProviderStore? && a.result.Stored?
    ensures a.result.record.providerName == svc.provider.value
  {
    var o := s.pending[a.keyId];
    StoredKeys(svc, s.records, ForProvider(o, svc.provider.value), o.secret, Some(a.keyId), a.draws, a.commits, a.result.record);
  }

  lemma WithdrawnStays(svc: Service, s: State, a: Action, id: string)
    requires NameKept(svc) && Kept(a) && Enabled(svc, s, a)
    requires Registered(s) && SettledAt(s, id) && WithdrawnAt(svc, s, id) && "" !in s.usedKeys
    ensures WithdrawnAt(svc, Apply(svc, s, a), id)
  {
    if id in s.records {
      StepSucceeds(svc, s, a, id);
      if id in Apply(svc, s, a).records { OldStaysWithdrawn(svc, s, a, id); }
    } else {
      StepBrings(svc, s, a, id);
      if Brings(a, id) {
        BroughtIsNew(svc, s, a, id, id);
        if a.ProviderStore? { StoredForProvider(svc, s, a); }
      }
    }
  }

  /** A revocation that passes the provider takes the record's upstream key away. */
  lemma ClearingWithdraws(svc: Service, s: State, a: Action, id: string)
    requires Kept(a) && Fits(svc, s, a) && id in s.records && id !in s.cleared && id in Apply(svc, s, a).cleared
    ensures Linked(svc, s.records[id]) ==> s.records[id].upstreamId.value !in Apply(svc, s, a).live
  {
    assert a.RevokeUpstream? && a.id == id;
  }

  /** Only a record whose revocation passed the provider becomes revoked. */
  lemma RevokedWasCleared(svc: Service, s: State, a: Action, id: string)
    requires Fits(svc, s, a) && id in s.records && id in Apply(svc, s, a).records && !s.records[id].revoked
    requires SettledAt(s, id)
    ensures Apply(svc, s, a).records[id].revoked ==> id in s.cleared
  {
    match a
    case Create(i, _, _, _, result) => InsertSucceeds(s, i, result, id);
    case ProviderStore(keyId, i, _, _, result, _) => InsertSucceeds(s.(pending := s.pending - {keyId}), i, result, id);
    case RevokeStore(i) => assert i != id ==> Revoked(s, i).records[id] == s.records[id];
    case Update(i, name, owner) => UpdateSucceeds(s, i, Strip(name), Strip(owner), id);
    case Replace(i, newKey) => ReplaceSucceeds(s, i, Strip(newKey), id);
    case _ =>
  }

  lemma ClearedStays(svc: Service, s: State, a: Action)
    requires Fits(svc, s, a)
    ensures s.cleared <= Apply(svc, s, a).cleared
  {
  }

  lemma OldStaysWithdrawn(svc: Service, s: State, a: Action, id: string)
    requires Kept(a) && Fits(svc, s, a) && Registered(s)
    requires id in s.records && SettledAt(s, id) && WithdrawnAt(svc, s, id)
    requires id in Apply(svc, s, a).records && Succeeds(s.records[id], Apply(svc, s, a).records[id])
    ensures WithdrawnAt(svc, Apply(svc, s, a), id)
  {
    var t := Apply(svc, s, a);
    ClearedStays(svc, s, a);
    if !s.records[id].revoked { RevokedWasCleared(svc, s, a, id); }
    if s.records[id].upstreamId.Some? && id in t.cleared {
      if id in s.cleared {
        LiveKeys(svc, s, a, s.records[id].upstreamId.value);
      } else {
        ClearingWithdraws(svc, s, a, id);
      }
    }
  }

  lemma NoneLeft(svc: Service, s: State, a: Action, keyId: string)
    requires Accounted(svc, s) && Kept(a) && Enabled(svc, s, a)
    ensures !Orphan(Apply(svc, s, a), keyId)
  {
    assert !Orphan(s, keyId);
    if a.Delete? { assert WithdrawnAt(svc, s, a.id); }
    OrphanedExactly(svc, s, a, keyId);
  }

  lemma KeptStepAccounts(svc: Service, s: State, a: Action)
    requires NameKept(svc) && Accounted(svc, s) && Kept(a) && Enabled(svc, s, a)
    ensures Accounted(svc, Apply(svc, s, a))
  {
    var t := Apply(svc, s, a);
    StepPreservesInvariant(svc, s, a);
    forall keyId ensures !Orphan(t, keyId) {
      NoneLeft(svc, s, a, keyId);
    }
    forall id ensures WithdrawnAt(svc, t, id) {
      assert SettledAt(s, id) && WithdrawnAt(svc, s, id);
      WithdrawnStays(svc, s, a, id);
    }
    NoEmptyKey(svc, s, a);
  }

  lemma NoEmptyKey(svc: Service, s: State, a: Action)
    requires Kept(a) && Fits(svc, s, a) && "" !in s.usedKeys
    ensures "" !in Apply(svc, s, a).usedKeys
  {
  }

  lemma {:induction false} KeptRunAccounts(svc: Service, h: seq<State>, k: nat)
    requires NameKept(svc) && KeptRun(svc, h) && k < |h|
    ensures Accounted(svc, h[k])
  {
    if k > 0 {
      KeptRunAccounts(svc, h, k - 1);
      assert KeptStep(svc, h[k - 1], h[k - 1 + 1]);
      var a: Action :| Kept(a) && Enabled(svc, h[k - 1], a) && h[k] == Apply(svc, h[k - 1], a);
      KeptStepAccounts(svc, h[k - 1], a);
    }
  }

  /**
  With a provider that keeps its word, in every reachable state each live upstream key belongs to a create
  in progress or to a record that is not revoked: no failed create, revocation or deletion leaves one behind.
  */
  lemma NoOrphans(svc: Service, h: seq<State>, k: nat, keyId: string)
    requires NameKept(svc) && KeptRun(svc, h) && k < |h| && keyId in h[k].live
    ensures keyId in h[k].pending || exists id :: Refers(h[k], id, keyId) && !h[k].records[id].revoked
  {
    KeptRunAccounts(svc, h, k);
    if keyId !in h[k].pending {
      assert !Orphan(h[k], keyId);
      var id :| Refers(h[k], id, keyId);
      assert WithdrawnAt(svc, h[k], id);
    }
  }

  // ---------- Replacing in bulk ----------

  datatype Row = Row(identifier: string, newKey: string)

  datatype RowResult = Replaced(id: string) | NotFound | KeyTooShort(id: string)

  /** `_find_for_bulk_replace` on a stripped identifier: by id, then by full key, then by a prefix that one record has. */
  function FindForBulk(svc: Service, records: Table, value: string): (id: Option<string>)
    ensures id.Some? ==> id.value in records
  {
    if value == "" then None
    else if value in records then Some(value)
    else if LooksLikeKey(value) && FindByRawKey(svc, records, value).Some? then FindByRawKey(svc, records, value)
    else TheOne(WithPrefix(records, value))
  }

  /** Some record's SafetyHub key is the value itself. */
  ghost predicate HasKey(records: Table, id: string, value: string) {
    id in records && Strip(records[id].safetyHubKey) == Strip(value)
  }

  /** Record `id` has the value as its key prefix, and no other record has. */
  ghost predicate AloneWithPrefix(records: Table, id: string, value: string) {
    id in records && forall jd :: jd in records ==> (records[jd].keyPrefix == value <==> jd == id)
  }

  lemma TheOneIs(ids: set<string>, id: string)
    ensures TheOne(ids) == Some(id) <==> ids == {id}
  {
    if ids == {id} {
      var found := TheOne(ids);
      assert found.value in ids;
    }
  }

  lemma PrefixAlone(records: Table, id: string, value: string)
    ensures TheOne(WithPrefix(records, value)) == Some(id) <==> AloneWithPrefix(records, id, value)
  {
    var ids := WithPrefix(records, value);
    TheOneIs(ids, id);
    assert forall jd :: jd in ids <==> jd in records && records[jd].keyPrefix == value;
    assert ids == {id} ==> id in ids && forall jd :: jd in ids <==> jd == id;
  }

  /**
  An identifier names a record by its id; failing that, when it looks like a key, by being its key; and
  failing that by being the prefix of its key alone.
  */
  lemma FoundForBulk(svc: Service, s: State, value: string, id: string)
    requires Invariant(svc, s) && Injective(svc.hash)
    ensures FindForBulk(svc, s.records, value) == Some(id) <==>
              && value != ""
              && if value in s.records then id == value
                 else if "sk-" <= value && exists jd :: HasKey(s.records, jd, value) then HasKey(s.records, id, value)
                 else AloneWithPrefix(s.records, id, value)
  {
    PrefixAlone(s.records, id, value);
    FoundIff(svc, s, value, id);
    if jd :| HasKey(s.records, jd, value) {
      FoundIff(svc, s, value, jd);
    }
    var found := FindByRawKey(svc, s.records, value);
    if found.Some? {
      FoundIff(svc, s, value, found.value);
      assert HasKey(s.records, found.value, value);
    }
  }

  predicate LooksLikeKey(value: string) {
    "sk-" <= value
  }

  function Judged(found: Option<string>, key: string): RowResult {
    if found == None then NotFound else if TooShort(key) then KeyTooShort(found.value) else Replaced(found.value)
  }

  function ResultOf(svc: Service, records: Table, row: Row): RowResult {
    Judged(FindForBulk(svc, records, Strip(row.identifier)), Strip(row.newKey))
  }

  /** A row is answered by whether its record is found and its new key is long enough. */
  lemma RowAnswer(svc: Service, records: Table, row: Row, id: string)
    ensures var found := FindForBulk(svc, records, Strip(row.identifier));
            && (ResultOf(svc, records, row) == NotFound <==> found == None)
            && (ResultOf(svc, records, row) == Replaced(id) <==> found == Some(id) && |Strip(row.newKey)| >= 8)
            && (ResultOf(svc, records, row) == KeyTooShort(id) <==> found == Some(id) && |Strip(row.newKey)| < 8)
  {
  }

  /** The last row that names a record decides its key. */
  function LastKey(svc: Service, records: Table, rows: seq<Row>, id: string): Option<string> {
    if rows == [] then None
    else
      var last := rows[|rows| - 1];
      if ResultOf(svc, records, last) == Replaced(id) then Some(Strip(last.newKey))
      else LastKey(svc, records, rows[..|rows| - 1], id)
  }

  function WithLast(r: Record, key: Option<string>): Record {
    if key == None then r else WithUpstream(r, key.value)
  }

  predicate SameLookups(records: Table, later: Table) {
    && records.Keys == later.Keys
    && forall id :: id in records ==> records[id].keyHash == later[id].keyHash && records[id].keyPrefix == later[id].keyPrefix
  }

  /** Replacing keys changes no lookup, so the rows do not see each other. */
  lemma LookupsStay(svc: Service, records: Table, later: Table, value: string)
    requires SameLookups(records, later)
    ensures FindForBulk(svc, later, value) == FindForBulk(svc, records, value)
  {
    assert WithHash(records, Hash(svc, value)) == WithHash(later, Hash(svc, value));
    assert WithPrefix(records, value) == WithPrefix(later, value);
  }

  /** What the rows so far have made of a record. */
  predicate KeyedAt(svc: Service, records: Table, rows: seq<Row>, later: Table, id: string) {
    id in records ==> id in later && later[id] == WithLast(records[id], LastKey(svc, records, rows, id))
  }

  ghost predicate AfterRows(svc: Service, records: Table, rows: seq<Row>, later: Table) {
    records.Keys == later.Keys && forall id :: KeyedAt(svc, records, rows, later, id)
  }

  lemma RowsKeepLookups(svc: Service, records: Table, rows: seq<Row>, later: Table, row: Row)
    requires AfterRows(svc, records, rows, later)
    ensures ResultOf(svc, later, row) == ResultOf(svc, records, row)
  {
    forall id | id in records
      ensures records[id].keyHash == later[id].keyHash && records[id].keyPrefix == later[id].keyPrefix
    {
      assert KeyedAt(svc, records, rows, later, id);
    }
    LookupsStay(svc, records, later, Strip(row.identifier));
  }

  /** Each row answered on the same table. */
  function Results(svc: Service, records: Table, rows: seq<Row>): (results: seq<RowResult>)
    ensures |results| == |rows|
  {
    if rows == [] then []
    else Results(svc, records, rows[..|rows| - 1]) + [ResultOf(svc, records, rows[|rows| - 1])]
  }

  lemma NextAnswer(svc: Service, records: Table, rows: seq<Row>, row: Row)
    ensures Results(svc, records, rows + [row]) == Results(svc, records, rows) + [ResultOf(svc, records, row)]
  {
    assert (rows + [row])[..|rows|] == rows;
  }

  function Applied(records: Table, result: RowResult, key: string): Table {
    if result.Replaced? && result.id in records then records[result.id := WithUpstream(records[result.id], key)] else records
  }

  lemma LastKeyStep(svc: Service, records: Table, rows: seq<Row>, row: Row, id: string)
    ensures LastKey(svc, records, rows + [row], id)
            == if ResultOf(svc, records, row) == Replaced(id) then Some(Strip(row.newKey)) else LastKey(svc, records, rows, id)
  {
    assert (rows + [row])[..|rows|] == rows;
  }

  lemma AppliedAt(later: Table, result: RowResult, key: string, id: string, r: Record, last: Option<string>)
    requires id in later && later[id] == WithLast(r, last)
    ensures var next := Applied(later, result, key);
            id in next && next[id] == WithLast(r, if result == Replaced(id) then Some(key) else last)
  {
  }

  lemma KeyedNext(svc: Service, records: Table, rows: seq<Row>, later: Table, row: Row, result: RowResult, id: string)
    requires KeyedAt(svc, records, rows, later, id) && result == ResultOf(svc, records, row)
    ensures KeyedAt(svc, records, rows + [row], Applied(later, result, Strip(row.newKey)), id)
  {
    LastKeyStep(svc, records, rows, row, id);
    if id in records {
      AppliedAt(later, result, Strip(row.newKey), id, records[id], LastKey(svc, records, rows, id));
    }
  }

  lemma AppliedKeys(records: Table, result: RowResult, key: string)
    ensures Applied(records, result, key).Keys == records.Keys
  {
  }

  lemma NextRow(svc: Service, records: Table, rows: seq<Row>, later: Table, row: Row, result: RowResult)
    requires AfterRows(svc, records, rows, later) && result == ResultOf(svc, records, row)
    ensures AfterRows(svc, records, rows + [row], Applied(later, result, Strip(row.newKey)))
  {
    AppliedKeys(later, result, Strip(row.newKey));
    forall id
      ensures KeyedAt(svc, records, rows + [row], Applied(later, result, Strip(row.newKey)), id)
    {
      assert KeyedAt(svc, records, rows, later, id);
      KeyedNext(svc, records, rows, later, row, result, id);
    }
  }

  lemma TakeNext(rows: seq<Row>, i: nat)
    requires i < |rows|
    ensures rows[..i] + [rows[i]] == rows[..i + 1]
  {
  }

  lemma RowDone(svc: Service, start: Table, rows: seq<Row>, row: Row, before: Table, results: seq<RowResult>, result: RowResult)
    requires AfterRows(svc, start, rows, before) && results == Results(svc, start, rows)
    requires result == ResultOf(svc, before, row)
    ensures AfterRows(svc, start, rows + [row], Applied(before, result, Strip(row.newKey)))
    ensures results + [result] == Results(svc, start, rows + [row])
  {
    RowsKeepLookups(svc, start, rows, before, row);
    NextRow(svc, start, rows, before, row, result);
    NextAnswer(svc, start, rows, row);
  }

  // ---------- The service object ----------

  datatype Outcome = Done(id: string, shown: Option<string>) | Rejected | Failed(reply: Reply)

  /**
  Each method is one call that no other interrupts: one step of the protocol, or two, so
  `StepPreservesInvariant` gives the invariant back to the caller.
  */
  class ApiKeyService {
    const svc: Service
    var records: Table
    ghost var live: set<string>
    ghost var pending: map<string, Order>
    ghost var cleared: set<string>
    ghost var usedIds: set<string>
    ghost var usedKeys: set<string>

    ghost function View(): State
      reads this
    {
      State(records, live, pending, cleared, usedIds, usedKeys)
    }

    constructor (svc: Service)
      ensures View() == INITIAL && this.svc == svc
    {
      this.svc := svc;
      records, live, pending, cleared, usedIds, usedKeys := map[], {}, map[], {}, {}, {};
    }

    /** `create` in manual mode: the SafetyHub key is shown unless it is the one that was given. */
    method CreateManual(id: string, p: Payload, draws: seq<string>, commits: bool) returns (outcome: Outcome)
      requires id !in usedIds && id !in records && |draws| == 10
      modifies this
      ensures View() == Inserted(old(View()), id, ManualReply(svc, old(records), p, draws, commits))
      ensures outcome.Done? <==> id in records
      ensures outcome.Done? ==> outcome == Done(id, if p.reuse then None else Some(records[id].safetyHubKey))
      ensures outcome == Rejected <==> |Strip(p.upstreamKey)| < 8
    {
      var upstream := Strip(p.upstreamKey);
      ManualIs(svc, records, p, upstream, draws, commits);
      if TooShort(upstream) {
        return Rejected;
      }
      var reply := Store(svc, records, Stripped(p), upstream, None, draws, commits);
      Keep(id, reply);
      outcome := if reply.Stored? then Done(id, if p.reuse then None else Some(reply.record.safetyHubKey)) else Failed(reply);
    }

    /** The end of the transaction: the record is in the table, or nothing happened. */
    method Keep(id: string, reply: Reply)
      modifies this`records, this`usedIds
      ensures View() == Inserted(old(View()), id, reply)
    {
      if reply.Stored? {
        records := records[id := reply.record];
        usedIds := usedIds + {id};
      }
    }

    /** The `try` of `create_from_provider` and its compensation; `stored` is how the transaction ended. */
    method SettleOrder(id: string, keyId: string, stored: Reply, reply: Withdrawal) returns (outcome: Outcome)
      requires keyId in pending && id !in records
      modifies this
      ensures View() == Finished(old(View()), keyId, id, stored, reply)
      ensures outcome == if stored.Stored? then Done(id, Some(stored.record.safetyHubKey)) else Failed(stored)
    {
      pending := pending - {keyId};
      if stored.Stored? {
        records := records[id := stored.record];
        usedIds := usedIds + {id};
        outcome := Done(id, Some(stored.record.safetyHubKey));
      } else {
        if keyId != "" {
          live := if reply.gone then live - {keyId} else live;
        }
        outcome := Failed(stored);
      }
    }

    /**
    `create_from_provider` once the provider has answered: the new key is shown when the record is stored;
    when it is not, the provider is asked to take the upstream key back, unless the answer itself was bad.
    A failed call leaves the upstream key live exactly when the secret was missing or shorter than eight
    characters, the key has no id, or the provider did not withdraw it.
    */
    method CreateFromProvider(id: string, p: Payload, keyId: string, secret: Option<string>, draws: seq<string>,
                              commits: bool, reply: Withdrawal) returns (outcome: Outcome)
      requires svc.provider.Some? && id !in records && keyId !in pending
      modifies this
      ensures var obtained := Obtained(old(View()), p, keyId, secret);
              if BadSecret(secret) then outcome == Rejected && View() == obtained
              else
                var result := OrderReply(svc, old(records), keyId, Order(p, secret.value), draws, commits);
                && View() == Finished(obtained, keyId, id, result, reply)
                && outcome == if result.Stored? then Done(id, Some(result.record.safetyHubKey)) else Failed(result)
      ensures !outcome.Done? ==> records == old(records) && (keyId in live <==> BadSecret(secret) || keyId == "" || !reply.gone)
    {
      live, usedKeys := live + {keyId}, usedKeys + {keyId};
      if secret == None || TooShort(secret.value) {
        return Rejected;
      }
      pending := pending[keyId := Order(p, secret.value)];
      var stored := OrderReply(svc, records, keyId, Order(p, secret.value), draws, commits);
      outcome := SettleOrder(id, keyId, stored, reply);
    }

    /** `revoke`: the provider first and, only if it does not raise, the record. */
    method Revoke(id: string, reply: Withdrawal) returns (done: bool)
      modifies this
      ensures id !in old(records) ==> !done && View() == old(View())
      ensures id in old(records) ==>
                var withdrawn := Cleared(svc, old(View()), id, reply);
                View() == if done then Revoked(withdrawn, id) else withdrawn
      ensures id in old(records) ==> (done <==> !(Linked(svc, old(records)[id]) && reply.raises))
      ensures records == if done then old(records)[id := old(records)[id].(revoked := true)] else old(records)
      ensures id in old(records) ==> AskedBack(svc, old(records)[id], reply, done, old(live), live)
    {
      if id !in records {
        return false;
      }
      if Linked(svc, records[id]) {
        live := if reply.gone then live - {records[id].upstreamId.value} else live;
        if reply.raises {
          return false;
        }
      }
      cleared := cleared + {id};
      records := records[id := records[id].(revoked := true)];
      done := true;
    }

    /** `delete_revoked`. */
    method DeleteRevoked(id: string) returns (done: bool)
      modifies this`records
      ensures View() == Deleted(old(View()), id)
      ensures done <==> id in old(records) && old(records)[id].revoked
      ensures records == if done then old(records) - {id} else old(records)
    {
      done := id in records && records[id].revoked;
      if done {
        records := records - {id};
      }
    }

    /** `replace_upstream_key`. */
    method ReplaceUpstreamKey(id: string, newKey: string) returns (done: bool)
      modifies this`records
      ensures View() == Rekeyed(old(View()), id, Strip(newKey))
      ensures done <==> id in old(records) && |Strip(newKey)| >= 8
      ensures done ==> records == old(records)[id := old(records)[id].(upstreamKey := Strip(newKey), decoupled := true)]
      ensures !done ==> records == old(records)
    {
      done := ReplaceStripped(id, Strip(newKey));
    }

    method ReplaceStripped(id: string, key: string) returns (done: bool)
      modifies this`records
      ensures View() == Rekeyed(old(View()), id, key)
      ensures done <==> id in old(records) && !TooShort(key)
    {
      done := !TooShort(key) && id in records;
      if done {
        records := records[id := WithUpstream(records[id], key)];
      }
    }

    /** One row of `bulk_replace`, once its record was looked for. */
    method ReplaceFound(found: Option<string>, key: string) returns (result: RowResult)
      requires found.Some? ==> found.value in records
      modifies this`records
      ensures result == Judged(found, key) && records == Applied(old(records), result, key)
    {
      result := NotFound;
      if found.Some? {
        var done := ReplaceStripped(found.value, key);
        result := if done then Replaced(found.value) else KeyTooShort(found.value);
      }
    }

    method ReplaceRow(row: Row) returns (result: RowResult)
      modifies this`records
      ensures result == ResultOf(svc, old(records), row)
      ensures records == Applied(old(records), result, Strip(row.newKey))
    {
      var value, key := Strip(row.identifier), Strip(row.newKey);
      result := ReplaceFound(FindForBulk(svc, records, value), key);
    }

    /**
    `bulk_replace`: each row is answered as it would be on the table before the call, whatever rows came
    before it, and each record ends up with the key of the last row that names it.
    */
    method BulkReplace(rows: seq<Row>) returns (results: seq<RowResult>)
      modifies this`records
      ensures results == Results(svc, old(records), rows)
      ensures AfterRows(svc, old(records), rows, records)
    {
      results := [];
      ghost var start, done: seq<Row> := records, [];
      for i := 0 to |rows|
        invariant done == rows[..i] && AfterRows(svc, start, done, records) && results == Results(svc, start, done)
      {
        ghost var before := records;
        var result := ReplaceRow(rows[i]);
        RowDone(svc, start, done, rows[i], before, results, result);
        TakeNext(rows, i);
        done := done + [rows[i]];
        results := results + [result];
      }
      assert done == rows;
    }
  }
}
