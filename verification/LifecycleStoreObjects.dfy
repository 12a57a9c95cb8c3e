/** The stores as objects: `InMemoryStore` with four maps, `SqliteLifecycleStore` with two tables,
    and the interface the engine and the scanner use. */
module LifecycleStoreObjects {
  import opened Common
  import opened LifecycleTypes
  import opened LifecycleStores

  /** The loop over the event ids, one at a time. */
  lemma BindNext(bindings: map<string, string>, eventIds: seq<string>, i: nat, id: string)
    requires i < |eventIds|
    ensures BindAll(bindings, eventIds[i..], id) == BindAll(bindings[eventIds[i] := id], eventIds[i + 1..], id)
  {
    assert eventIds[i..][1..] == eventIds[i + 1..];
  }

  class InMemoryStore {
    var lifecycles: map<string, Lifecycle>
    var byResource: map<string, string>
    var byBusinessKey: map<string, string>
    var byEvent: map<string, string>

    ghost function Value(): MemState
      reads this
    {
      MemState(lifecycles, byResource, byBusinessKey, byEvent)
    }

    constructor ()
      ensures Value() == MemState(map[], map[], map[], map[])
    {
      lifecycles, byResource, byBusinessKey, byEvent := map[], map[], map[], map[];
    }

    method Upsert(lc: Lifecycle)
      modifies this
      ensures Value() == MemUpsert(old(Value()), lc)
    {
      if lc.resourceId.Some? {
        byResource := byResource[lc.resourceId.value := lc.id];
      }
      if lc.businessKey.Some? {
        byBusinessKey := byBusinessKey[lc.businessKey.value := lc.id];
      }
      ghost var resources, keys := byResource, byBusinessKey;
      assert resources == Reindexed(old(byResource), lc.resourceId, lc.id);
      assert keys == Reindexed(old(byBusinessKey), lc.businessKey, lc.id);
      ghost var goal := BindAll(byEvent, lc.eventIds, lc.id);
      assert lc.eventIds[0..] == lc.eventIds;
      for i := 0 to |lc.eventIds|
        invariant lifecycles == old(lifecycles) && byResource == resources && byBusinessKey == keys
        invariant BindAll(byEvent, lc.eventIds[i..], lc.id) == goal
      {
        BindNext(byEvent, lc.eventIds, i, lc.id);
        byEvent := byEvent[lc.eventIds[i] := lc.id];
      }
      assert byEvent == goal;
      lifecycles := lifecycles[lc.id := lc];
    }

    method RecordEvent(e: string, id: string)
      modifies this
      ensures Mem(Value()) == LifecycleStores.RecordEvent(Mem(old(Value())), e, id)
    {
      byEvent := byEvent[e := id];
    }
  }

  class SqliteLifecycleStore {
    var rows: map<string, Row>
    var bindings: map<string, string>

    ghost function Value(): SqlState
      reads this
    {
      SqlState(rows, bindings)
    }

    constructor ()
      ensures Value() == SqlState(map[], map[])
    {
      rows, bindings := map[], map[];
    }

    method SelectByResource(r: string) returns (found: Option<string>)
      ensures SelectsResource(rows, r, found)
    {
      var matching := set id | id in rows && rows[id].resourceId == Some(r);
      if matching == {} {
        assert forall id <- rows :: id !in matching;
        return None;
      }
      var id :| id in matching;
      found := Some(id);
    }

    method SelectByBusinessKey(k: string) returns (found: Option<string>)
      ensures SelectsBusinessKey(rows, k, found)
    {
      var matching := set id | id in rows && rows[id].businessKey == Some(k);
      if matching == {} {
        assert forall id <- rows :: id !in matching;
        return None;
      }
      var id :| id in matching;
      found := Some(id);
    }

    /** One transaction: the row and all its bindings. */
    method Upsert(lc: Lifecycle)
      modifies this
      ensures Value() == SqlUpsert(old(Value()), lc)
    {
      rows := (rows - Displaced(rows, lc))[lc.id := RowOf(lc)];
      ghost var goal := BindAll(bindings, lc.eventIds, lc.id);
      assert lc.eventIds[0..] == lc.eventIds;
      for i := 0 to |lc.eventIds|
        invariant rows == (old(rows) - Displaced(old(rows), lc))[lc.id := RowOf(lc)]
        invariant BindAll(bindings, lc.eventIds[i..], lc.id) == goal
      {
        BindNext(bindings, lc.eventIds, i, lc.id);
        bindings := bindings[lc.eventIds[i] := lc.id];
      }
    }

    method RecordEvent(e: string, id: string)
      modifies this
      ensures Sql(Value()) == LifecycleStores.RecordEvent(Sql(old(Value())), e, id)
    {
      bindings := bindings[e := id];
    }
  }

  /** `dyn LifecycleStore`: the engine and the scanner work on either. */
  datatype LifecycleStore =
    | InMemory(mem: InMemoryStore)
    | Sqlite(sql: SqliteLifecycleStore)
  {
    function Footprint(): set<object> {
      match this
      case InMemory(mem) => {mem}
      case Sqlite(sql) => {sql}
    }

    ghost function Value(): Store
      reads Footprint()
    {
      match this
      case InMemory(mem) => Mem(mem.Value())
      case Sqlite(sql) => Sql(sql.Value())
    }

    /** The table was written by `upsert` and its keys are unique; the maps need nothing. */
    ghost predicate Valid()
      reads Footprint()
    {
      Sqlite? ==> TableOk(sql.rows)
    }

    method Get(id: string) returns (r: Option<Lifecycle>)
      ensures r == LifecycleStores.Get(Value(), id)
    {
      match this
      case InMemory(mem) => r := Lookup(mem.lifecycles, id);
      case Sqlite(sql) => r := if id in sql.rows then Some(sql.rows[id].body) else None;
    }

    method FindByResource(key: string) returns (r: Option<string>)
      requires Valid()
      ensures r == LifecycleStores.FindByResource(Value(), key)
    {
      match this
      case InMemory(mem) => r := Lookup(mem.byResource, key);
      case Sqlite(sql) =>
        r := sql.SelectByResource(key);
        SelectionDetermined(sql.Value(), key, r, None);
    }

    method FindByBusinessKey(key: string) returns (r: Option<string>)
      requires Valid()
      ensures r == LifecycleStores.FindByBusinessKey(Value(), key)
    {
      match this
      case InMemory(mem) => r := Lookup(mem.byBusinessKey, key);
      case Sqlite(sql) =>
        r := sql.SelectByBusinessKey(key);
        SelectionDetermined(sql.Value(), key, None, r);
    }

    method FindByEvent(key: string) returns (r: Option<string>)
      ensures r == LifecycleStores.FindByEvent(Value(), key)
    {
      match this
      case InMemory(mem) => r := Lookup(mem.byEvent, key);
      case Sqlite(sql) => r := Lookup(sql.bindings, key);
    }

    method Upsert(lc: Lifecycle)
      modifies Footprint()
      ensures Value() == LifecycleStores.Upsert(old(Value()), lc)
    {
      match this
      case InMemory(mem) => mem.Upsert(lc);
      case Sqlite(sql) => sql.Upsert(lc);
    }

    method RecordEvent(e: string, id: string)
      modifies Footprint()
      ensures Value() == LifecycleStores.RecordEvent(old(Value()), e, id)
    {
      match this
      case InMemory(mem) => mem.RecordEvent(e, id);
      case Sqlite(sql) => sql.RecordEvent(e, id);
    }

    /** All open lifecycles, each once, in no particular order. */
    method AllOpen() returns (open: seq<Lifecycle>)
      ensures IsOpenListing(Value(), open)
    {
      ghost var ids: seq<string>;
      var matching: map<string, Lifecycle>;
      match this {
        case InMemory(mem) =>
          matching := map id | id in mem.lifecycles && mem.lifecycles[id].closure == Open :: mem.lifecycles[id];
        case Sqlite(sql) =>
          matching := map id | id in sql.rows && sql.rows[id].closure == Open :: sql.rows[id].body;
      }
      open, ids := Listed(matching);
      forall i | 0 <= i < |ids|
        ensures LifecycleStores.Get(Value(), ids[i]) == Some(open[i])
      {
        assert ids[i] in matching && open[i] == matching[ids[i]];
      }
      assert ListsOpen(Value(), open, ids);
    }
  }

  /** The values of a map, each once, with the keys they stand for. */
  method Listed(all: map<string, Lifecycle>) returns (values: seq<Lifecycle>, ghost ids: seq<string>)
    ensures |ids| == |values|
    ensures forall i, j :: 0 <= i < j < |ids| ==> ids[i] != ids[j]
    ensures forall id :: id in ids <==> id in all
    ensures forall i :: 0 <= i < |ids| ==> values[i] == all[ids[i]]
  {
    values, ids := [], [];
    var todo := all.Keys;
    while todo != {}
      invariant todo <= all.Keys
      invariant |ids| == |values|
      invariant forall i, j :: 0 <= i < j < |ids| ==> ids[i] != ids[j]
      invariant forall id :: id in ids <==> id in all && id !in todo
      invariant forall i :: 0 <= i < |ids| ==> ids[i] in all && values[i] == all[ids[i]]
      decreases todo
    {
      var id :| id in todo;
      todo := todo - {id};
      values := values + [all[id]];
      ids := ids + [id];
    }
  }
}
