/** The two lifecycle stores. The in-memory one keeps three index maps beside the lifecycles; the
    SQLite one is a table with a primary key and two partial unique indexes, written by
    `INSERT OR REPLACE`, beside a table of event bindings. */
module LifecycleStores {
  import opened Common
  import opened LifecycleTypes

  // ---------------------------------------------------------------- values

  datatype MemState = MemState(
    lifecycles: map<string, Lifecycle>,
    byResource: map<string, string>,
    byBusinessKey: map<string, string>,
    byEvent: map<string, string>)

  /** The columns that a key, an index or a query reads, and the JSON body. */
  datatype Row = Row(
    tenantId: string,
    businessKey: Option<string>,
    resourceId: Option<string>,
    closure: Closure,
    body: Lifecycle)

  datatype SqlState = SqlState(rows: map<string, Row>, bindings: map<string, string>)

  function RowOf(lc: Lifecycle): Row {
    Row(lc.tenantId, lc.businessKey, lc.resourceId, lc.closure, lc)
  }

  function Lookup<V>(m: map<string, V>, k: string): Option<V> {
    if k in m then Some(m[k]) else None
  }

  function BindAll(byEvent: map<string, string>, eventIds: seq<string>, id: string): (r: map<string, string>)
    ensures forall e :: e in r <==> e in byEvent || e in eventIds
    ensures forall e <- r :: r[e] == if e in eventIds then id else byEvent[e]
    decreases |eventIds|
  {
    if eventIds == [] then byEvent
    else BindAll(byEvent[eventIds[0] := id], eventIds[1..], id)
  }

  function Reindexed(index: map<string, string>, key: Option<string>, id: string): map<string, string> {
    match key
    case None => index
    case Some(k) => index[k := id]
  }

  function MemUpsert(m: MemState, lc: Lifecycle): MemState {
    MemState(
      m.lifecycles[lc.id := lc],
      Reindexed(m.byResource, lc.resourceId, lc.id),
      Reindexed(m.byBusinessKey, lc.businessKey, lc.id),
      BindAll(m.byEvent, lc.eventIds, lc.id))
  }

  /** The rows an insert of `lc` conflicts with: same primary key, or same tenant and a shared
      non-null resource id or business key. */
  function Displaced(rows: map<string, Row>, lc: Lifecycle): set<string> {
    set id | id in rows &&
      (|| id == lc.id
       || (rows[id].tenantId == lc.tenantId && lc.resourceId.Some? && rows[id].resourceId == lc.resourceId)
       || (rows[id].tenantId == lc.tenantId && lc.businessKey.Some? && rows[id].businessKey == lc.businessKey))
  }

  function SqlUpsert(q: SqlState, lc: Lifecycle): SqlState {
    SqlState((q.rows - Displaced(q.rows, lc))[lc.id := RowOf(lc)], BindAll(q.bindings, lc.eventIds, lc.id))
  }

  /** `SELECT id ... WHERE column = ? LIMIT 1`: some matching row. */
  ghost predicate SelectsResource(rows: map<string, Row>, r: string, found: Option<string>) {
    match found
    case Some(id) => id in rows && rows[id].resourceId == Some(r)
    case None => forall id <- rows :: rows[id].resourceId != Some(r)
  }

  ghost predicate SelectsBusinessKey(rows: map<string, Row>, k: string, found: Option<string>) {
    match found
    case Some(id) => id in rows && rows[id].businessKey == Some(k)
    case None => forall id <- rows :: rows[id].businessKey != Some(k)
  }

  // ---------------------------------------------------------------- the index invariant

  /** An index answers exactly as a scan over all lifecycles would, and its hits resolve. */
  ghost predicate IndexExact(m: MemState, index: map<string, string>, keyOf: Lifecycle -> Option<string>) {
    && (forall k <- index :: index[k] in m.lifecycles && keyOf(m.lifecycles[index[k]]) == Some(k))
    && (forall id <- m.lifecycles ::
          var key := keyOf(m.lifecycles[id]); key.Some? ==> key.value in index && index[key.value] == id)
  }

  const RESOURCE_KEY: Lifecycle -> Option<string> := (lc: Lifecycle) => lc.resourceId
  const BUSINESS_KEY: Lifecycle -> Option<string> := (lc: Lifecycle) => lc.businessKey

  ghost predicate EventsExact(m: MemState) {
    && (forall e <- m.byEvent :: m.byEvent[e] in m.lifecycles && e in m.lifecycles[m.byEvent[e]].eventIds)
    && (forall id <- m.lifecycles :: forall e <- m.lifecycles[id].eventIds :: e in m.byEvent && m.byEvent[e] == id)
  }

  ghost predicate MemInv(m: MemState) {
    && (forall id <- m.lifecycles :: m.lifecycles[id].id == id)
    && IndexExact(m, m.byResource, RESOURCE_KEY)
    && IndexExact(m, m.byBusinessKey, BUSINESS_KEY)
    && EventsExact(m)
  }

  /** The table model holds the same lifecycles and bindings. */
  ghost predicate Related(m: MemState, q: SqlState) {
    && q.rows.Keys == m.lifecycles.Keys
    && (forall id <- q.rows :: q.rows[id] == RowOf(m.lifecycles[id]))
    && q.bindings == m.byEvent
  }

  predicate KeyFree(index: map<string, string>, key: Option<string>, id: string) {
    key.Some? && key.value in index ==> index[key.value] == id
  }

  /** What every caller of `upsert` has to respect: keys and events of other lifecycles are not
      taken over, and a lifecycle already stored keeps its keys and events. */
  ghost predicate Upsertable(m: MemState, lc: Lifecycle) {
    && KeyFree(m.byResource, lc.resourceId, lc.id)
    && KeyFree(m.byBusinessKey, lc.businessKey, lc.id)
    && (forall e <- lc.eventIds :: KeyFree(m.byEvent, Some(e), lc.id))
    && (lc.id in m.lifecycles ==>
          var was := m.lifecycles[lc.id];
          && was.resourceId == lc.resourceId && was.businessKey == lc.businessKey
          && forall e <- was.eventIds :: e in lc.eventIds)
  }

  lemma ReindexKeepsExact(m: MemState, lc: Lifecycle, index: map<string, string>, keyOf: Lifecycle -> Option<string>)
    requires IndexExact(m, index, keyOf) && KeyFree(index, keyOf(lc), lc.id)
    requires lc.id in m.lifecycles ==> keyOf(m.lifecycles[lc.id]) == keyOf(lc)
    ensures IndexExact(MemUpsert(m, lc), Reindexed(index, keyOf(lc), lc.id), keyOf)
  {
  }

  lemma BindingsKeepExact(m: MemState, lc: Lifecycle)
    requires EventsExact(m) && forall e <- lc.eventIds :: KeyFree(m.byEvent, Some(e), lc.id)
    requires lc.id in m.lifecycles ==> forall e <- m.lifecycles[lc.id].eventIds :: e in lc.eventIds
    ensures EventsExact(MemUpsert(m, lc))
  {
    var after := MemUpsert(m, lc);
    forall id, e | id in after.lifecycles && e in after.lifecycles[id].eventIds
      ensures e in after.byEvent && after.byEvent[e] == id
    {
      if id != lc.id {
        assert m.byEvent[e] == id;
      }
    }
  }

  lemma UpsertKeepsIndexes(m: MemState, lc: Lifecycle)
    requires MemInv(m) && Upsertable(m, lc)
    ensures MemInv(MemUpsert(m, lc))
  {
    ReindexKeepsExact(m, lc, m.byResource, RESOURCE_KEY);
    ReindexKeepsExact(m, lc, m.byBusinessKey, BUSINESS_KEY);
    BindingsKeepExact(m, lc);
  }

  /** `INSERT OR REPLACE` displaces no other lifecycle, and the two stores stay alike. */
  lemma UpsertKeepsRelation(m: MemState, q: SqlState, lc: Lifecycle)
    requires MemInv(m) && Related(m, q) && Upsertable(m, lc)
    ensures Displaced(q.rows, lc) <= {lc.id}
    ensures Related(MemUpsert(m, lc), SqlUpsert(q, lc))
  {
    forall id | id in Displaced(q.rows, lc)
      ensures id == lc.id
    {
      assert q.rows[id] == RowOf(m.lifecycles[id]);
      if id != lc.id {
        KeysNotShared(m, lc, id);
      }
    }
    var rows := SqlUpsert(q, lc).rows;
    assert rows == q.rows[lc.id := RowOf(lc)];
  }

  lemma KeysNotShared(m: MemState, lc: Lifecycle, id: string)
    requires MemInv(m) && Upsertable(m, lc) && id in m.lifecycles && id != lc.id
    ensures lc.resourceId.Some? ==> m.lifecycles[id].resourceId != lc.resourceId
    ensures lc.businessKey.Some? ==> m.lifecycles[id].businessKey != lc.businessKey
  {
    assert RESOURCE_KEY(m.lifecycles[id]) == m.lifecycles[id].resourceId;
    assert BUSINESS_KEY(m.lifecycles[id]) == m.lifecycles[id].businessKey;
  }

  /** No two lifecycles share a resource id or a business key. */
  lemma KeysUnique(m: MemState, a: string, b: string)
    requires MemInv(m) && a in m.lifecycles && b in m.lifecycles && a != b
    ensures m.lifecycles[a].resourceId.Some? ==> m.lifecycles[a].resourceId != m.lifecycles[b].resourceId
    ensures m.lifecycles[a].businessKey.Some? ==> m.lifecycles[a].businessKey != m.lifecycles[b].businessKey
  {
    assert RESOURCE_KEY(m.lifecycles[a]) == m.lifecycles[a].resourceId;
    assert RESOURCE_KEY(m.lifecycles[b]) == m.lifecycles[b].resourceId;
    assert BUSINESS_KEY(m.lifecycles[a]) == m.lifecycles[a].businessKey;
    assert BUSINESS_KEY(m.lifecycles[b]) == m.lifecycles[b].businessKey;
  }

  /** Both stores answer every query alike, and every index hit resolves. */
  lemma QueriesAgree(m: MemState, q: SqlState, key: string, byResource: Option<string>, byBusinessKey: Option<string>)
    requires MemInv(m) && Related(m, q)
    requires SelectsResource(q.rows, key, byResource) && SelectsBusinessKey(q.rows, key, byBusinessKey)
    ensures byResource == Lookup(m.byResource, key)
    ensures byBusinessKey == Lookup(m.byBusinessKey, key)
    ensures Lookup(q.bindings, key) == Lookup(m.byEvent, key)
    ensures key in q.rows <==> key in m.lifecycles
    ensures key in q.rows ==> q.rows[key].body == m.lifecycles[key]
    ensures byResource.Some? ==> byResource.value in m.lifecycles
    ensures byBusinessKey.Some? ==> byBusinessKey.value in m.lifecycles
    ensures key in m.byEvent ==> m.byEvent[key] in m.lifecycles
  {
    forall id | id in m.lifecycles
      ensures q.rows[id] == RowOf(m.lifecycles[id])
      ensures RESOURCE_KEY(m.lifecycles[id]) == q.rows[id].resourceId
      ensures BUSINESS_KEY(m.lifecycles[id]) == q.rows[id].businessKey
    {
    }
  }

  // ---------------------------------------------------------------- either store

  datatype Store =
    | Mem(m: MemState)
    | Sql(q: SqlState)

  function Get(s: Store, id: string): Option<Lifecycle> {
    match s
    case Mem(m) => Lookup(m.lifecycles, id)
    case Sql(q) => if id in q.rows then Some(q.rows[id].body) else None
  }

  ghost function FindByResource(s: Store, r: string): Option<string> {
    match s
    case Mem(m) => Lookup(m.byResource, r)
    case Sql(q) =>
      if exists id :: id in q.rows && q.rows[id].resourceId == Some(r) then
        var id :| id in q.rows && q.rows[id].resourceId == Some(r); Some(id)
      else None
  }

  ghost function FindByBusinessKey(s: Store, k: string): Option<string> {
    match s
    case Mem(m) => Lookup(m.byBusinessKey, k)
    case Sql(q) =>
      if exists id :: id in q.rows && q.rows[id].businessKey == Some(k) then
        var id :| id in q.rows && q.rows[id].businessKey == Some(k); Some(id)
      else None
  }

  function FindByEvent(s: Store, e: string): Option<string> {
    match s
    case Mem(m) => Lookup(m.byEvent, e)
    case Sql(q) => Lookup(q.bindings, e)
  }

  function Upsert(s: Store, lc: Lifecycle): Store {
    match s
    case Mem(m) => Mem(MemUpsert(m, lc))
    case Sql(q) => Sql(SqlUpsert(q, lc))
  }

  function RecordEvent(s: Store, e: string, id: string): Store {
    match s
    case Mem(m) => Mem(m.(byEvent := m.byEvent[e := id]))
    case Sql(q) => Sql(q.(bindings := q.bindings[e := id]))
  }

  function OpenIds(s: Store): set<string> {
    match s
    case Mem(m) => set id | id in m.lifecycles && m.lifecycles[id].closure == Open
    case Sql(q) => set id | id in q.rows && q.rows[id].closure == Open
  }

  /** No two rows share a resource id or a business key, whatever their tenants. */
  ghost predicate UniqueKeys(rows: map<string, Row>) {
    forall a, b :: a in rows && b in rows && a != b ==>
      && (rows[a].resourceId.Some? ==> rows[a].resourceId != rows[b].resourceId)
      && (rows[a].businessKey.Some? ==> rows[a].businessKey != rows[b].businessKey)
  }

  /** Every row's columns were written from its body, and keys are unique. */
  ghost predicate TableOk(rows: map<string, Row>) {
    && UniqueKeys(rows)
    && (forall id <- rows :: rows[id] == RowOf(rows[id].body) && rows[id].body.id == id)
  }

  /** With unique keys there is one answer to `LIMIT 1`. */
  lemma SelectionDetermined(q: SqlState, key: string, r: Option<string>, k: Option<string>)
    requires UniqueKeys(q.rows)
    ensures SelectsResource(q.rows, key, r) ==> r == FindByResource(Sql(q), key)
    ensures SelectsBusinessKey(q.rows, key, k) ==> k == FindByBusinessKey(Sql(q), key)
  {
  }

  ghost predicate ListsOpen(s: Store, open: seq<Lifecycle>, ids: seq<string>) {
    && |ids| == |open|
    && (forall i, j :: 0 <= i < j < |ids| ==> ids[i] != ids[j])
    && (forall id :: id in ids <==> id in OpenIds(s))
    && (forall i :: 0 <= i < |ids| ==> Get(s, ids[i]) == Some(open[i]))
  }

  ghost predicate IsOpenListing(s: Store, open: seq<Lifecycle>) {
    exists ids :: ListsOpen(s, open, ids)
  }
}
