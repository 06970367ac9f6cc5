/** The `querySrv` service: the registry of user queries, with the query
    flavour's defaults (a palette colour per id, `'*'` as the query text) and
    its translation of a record into a query-string query. */
module QueryService {
  import opened Values
  import opened Seqs
  import opened Ejs
  import Registry

  /** The 56-colour palette (`this.colors`). */
  const Colors: seq<string> := [
    "#7EB26D", "#EAB839", "#6ED0E0", "#EF843C", "#E24D42", "#1F78C1", "#BA43A9", "#705DA0",
    "#508642", "#CCA300", "#447EBC", "#C15C17", "#890F02", "#0A437C", "#6D1F62", "#584477",
    "#B7DBAB", "#F4D598", "#70DBED", "#F9BA8F", "#F29191", "#82B5D8", "#E5A8E2", "#AEA2E0",
    "#629E51", "#E5AC0E", "#64B0C8", "#E0752D", "#BF1B00", "#0A50A1", "#962D82", "#614D93",
    "#9AC48A", "#F2C96D", "#65C5DB", "#F9934E", "#EA6460", "#5195CE", "#D683CE", "#806EB7",
    "#3F6833", "#967302", "#2F575E", "#99440A", "#58140C", "#052B51", "#511749", "#3F2B5B",
    "#E0F9D7", "#FCEACA", "#CFFAFF", "#F9E2D2", "#FCE2DE", "#BADFF4", "#F9D9F9", "#DEDAF7"
  ]

  /** `colorAt(id)`: the palette entry at `id mod 56`, so ids that differ by a
      multiple of 56 share a colour. */
  function ColorAt(id: nat): (c: string)
    ensures c in Colors
    ensures id < |Colors| ==> c == Colors[id]
  {
    var i := id % |Colors|;
    assert id < |Colors| ==> i == id;
    Colors[i]
  }

  /** Ids that differ by the palette size share a colour. */
  lemma ColorPeriodic(id: nat)
    ensures ColorAt(id + |Colors|) == ColorAt(id)
  {
    assert (id + 56) % 56 == id % 56;
  }

  /** The fields an id-less `set` fills in. */
  function QueryDefaults(id: nat): (r: Record)
    ensures r.Keys == {"query", "alias", "color", "pin", "id", "type"}
    ensures r["query"] == Str("*") && r["type"] == Str("lucene") && r["pin"] == Bool(false)
    ensures r["id"] == Num(id) && r["color"] == Str(Colors[id % |Colors|])
  {
    map["query" := Str("*"), "alias" := Str(""), "color" := Str(ColorAt(id)),
        "pin" := Bool(false), "id" := Num(id), "type" := Str("lucene")]
  }

  /** `_.defaults(query, _query)`: the record an id-less `set(q)` stores. */
  function NewQuery(q: Record, id: nat): (r: Record)
    ensures r.Keys == q.Keys + QueryDefaults(id).Keys
    ensures forall k :: k in q ==> r[k] == q[k]
  {
    Defaults(q, QueryDefaults(id))
  }

  /** An id-less `set` keeps every field the caller gave and fills only the
      missing ones. */
  lemma NewQueryFields(q: Record, id: nat)
    ensures var r := NewQuery(q, id);
      && r.Keys == q.Keys + {"query", "alias", "color", "pin", "id", "type"}
      && (forall k :: k in q ==> r[k] == q[k])
      && ("query" !in q ==> r["query"] == Str("*"))
      && ("alias" !in q ==> r["alias"] == Str(""))
      && ("color" !in q ==> r["color"] == Str(Colors[id % 56]))
      && ("pin" !in q ==> r["pin"] == Bool(false))
      && ("id" !in q ==> r["id"] == Num(id))
      && ("type" !in q ==> r["type"] == Str("lucene"))
  {
  }

  /** `toEjsObj(q)`: a query-string query over `q.query || '*'`; a record whose
      type is not `'lucene'` and that has no query yields `false`. */
  function ToEjsObj(q: Record): (e: Ejs)
    ensures e.NoFilter? <==> Get(q, "type") != Some(Str("lucene")) && "query" !in q
    ensures e.QueryStringQuery? <==> !e.NoFilter?
    ensures e.QueryStringQuery? && Truthy(Get(q, "query")) ==> e.query == Some(q["query"])
    ensures e.QueryStringQuery? && !Truthy(Get(q, "query")) ==> e.query == Some(Str("*"))
  {
    var text := if Truthy(Get(q, "query")) then Get(q, "query") else Some(Str("*"));
    if Get(q, "type") == Some(Str("lucene")) then QueryStringQuery(text)
    else if Get(q, "query").None? then NoFilter
    else QueryStringQuery(text)
  }

  predicate HasQuery(list: map<nat, Record>, k: nat, text: Value)
  {
    k in list && Get(list[k], "query") == Some(text)
  }

  /** The position in `keys` of the first key whose record has exactly `text`
      as its query, or -1. */
  function FirstWithQuery(list: map<nat, Record>, keys: seq<nat>, text: Value): (i: int)
    ensures -1 <= i < |keys|
    ensures i == -1 <==> forall k :: k in keys ==> !HasQuery(list, k, text)
    ensures i >= 0 ==> HasQuery(list, keys[i], text) && forall j :: 0 <= j < i ==> !HasQuery(list, keys[j], text)
    decreases |keys|
  {
    if keys == [] then -1
    else if HasQuery(list, keys[0], text) then 0
    else
      var i := FirstWithQuery(list, keys[1..], text);
      assert forall k :: k in keys <==> k == keys[0] || k in keys[1..];
      if i == -1 then -1
      else
        assert forall j :: 1 <= j < i + 1 ==> keys[j] == keys[1..][j - 1];
        i + 1
  }

  /** `findQuery(queryString)`: `_.findWhere(list, {query: queryString})`, the
      first record, in ascending id order, whose query is `text`. */
  function FindQuery(list: map<nat, Record>, text: Value): (r: Option<Record>)
    ensures r.Some? ==> r.value in list.Values && Get(r.value, "query") == Some(text)
  {
    var keys := AscendingKeys(list.Keys);
    var i := FirstWithQuery(list, keys, text);
    if i == -1 then None else Some(list[keys[i]])
  }

  /** `findQuery` finds nothing exactly when no record has `text` as its
      query, and otherwise the record with the smallest such id. */
  lemma FindQueryMeaning(list: map<nat, Record>, text: Value)
    ensures FindQuery(list, text).None? <==> forall k :: k in list ==> !HasQuery(list, k, text)
    ensures FindQuery(list, text).Some? ==> exists k ::
      && HasQuery(list, k, text)
      && FindQuery(list, text).value == list[k]
      && (forall j :: j < k ==> !HasQuery(list, j, text))
  {
    var keys := AscendingKeys(list.Keys);
    var i := FirstWithQuery(list, keys, text);
    if i == -1 {
      assert forall k :: k in list ==> k in keys;
    } else {
      var k := keys[i];
      assert k in keys;
      FirstIsSmallest(list, text, keys, i);
      assert HasQuery(list, k, text) && FindQuery(list, text).value == list[k];
    }
  }

  /** The first match in ascending key order has the smallest key of all
      matches. */
  lemma FirstIsSmallest(list: map<nat, Record>, text: Value, keys: seq<nat>, i: nat)
    requires forall k :: k in keys <==> k in list
    requires StrictlyAscending(keys)
    requires i < |keys| && forall j :: 0 <= j < i ==> !HasQuery(list, keys[j], text)
    ensures forall j :: j < keys[i] ==> !HasQuery(list, j, text)
  {
  }

  /** What `init` makes of a slice: one default query added when it holds
      none, the slice itself otherwise. */
  function Seeded(slice: Registry.Table): (r: Registry.Table)
    ensures r.ids != []
    ensures slice.ids != [] ==> r == slice
  {
    if slice.ids == [] then Registry.Added(slice, NewQuery(map[], Registry.NextId(slice))) else slice
  }

  /** Seeding a consistent empty slice adds exactly one query, the default
      one, under id 0 with the first palette colour; a slice that holds a
      query is left alone. */
  lemma SeededFirst(slice: Registry.Table)
    requires Registry.Valid(slice)
    ensures slice.ids != [] ==> Seeded(slice) == slice
    ensures slice.ids == [] ==>
      && Seeded(slice).ids == [0]
      && Seeded(slice).list == map[0 := QueryDefaults(0)]
      && Seeded(slice).list[0]["color"] == Str(Colors[0])
      && Registry.Valid(Seeded(slice))
  {
    if slice.ids == [] {
      assert slice.list.Keys == {};
      if slice.idQueue != [] {
        assert 0 in slice.idQueue;
        var j :| 0 <= j < |slice.idQueue| && slice.idQueue[j] == 0;
        assert slice.idQueue[0] <= slice.idQueue[j];
      }
      assert Registry.NextId(slice) == 0;
      assert NewQuery(map[], 0) == QueryDefaults(0);
      Registry.AddedValid(slice, QueryDefaults(0));
    }
  }

  /** The query registry; its three fields are `services.query` of the
      current dashboard. */
  class QuerySrv {
    var list: map<nat, Record>
    var ids: seq<nat>
    var idQueue: seq<nat>

    function State(): Registry.Table
      reads this
    {
      Registry.Table(list, ids, idQueue)
    }

    ghost predicate Valid()
      reads this
    {
      Registry.Valid(State())
    }

    constructor ()
      ensures State() == Registry.Empty
    {
      list, ids, idQueue := map[], [], [];
    }

    /** `init()`: bind to the dashboard's slice and, when it holds no query,
        add the default one. */
    method Init(slice: Registry.Table)
      modifies this
      ensures State() == Seeded(slice)
      ensures ids != []
      ensures Registry.Valid(slice) ==> Valid()
    {
      list, ids, idQueue := slice.list, slice.ids, slice.idQueue;
      if |ids| == 0 {
        var _ := Set(map[], None);
      }
    }

    /** `nextId()`: shift the smallest released id off the queue, or use the
        number of live ids when none is queued. */
    method NextId() returns (id: nat)
      modifies this`idQueue
      ensures id == Registry.NextId(old(State()))
      ensures State() == Registry.Minted(old(State()))
    {
      if |idQueue| > 0 {
        id := idQueue[0];
        idQueue := idQueue[1..];
      } else {
        id := |ids|;
      }
    }

    /** `set(q, id)`: with an id, merge `q` into that record (false when it does
        not exist); without one, store `q` with the defaults filled in under a
        freshly minted id. */
    method Set(q: Record, id: Option<nat>) returns (r: Option<nat>)
      modifies this
      ensures id.Some? && id.value in old(list) ==> r == id && State() == Registry.Merged(old(State()), id.value, q)
      ensures id.Some? && id.value !in old(list) ==> r.None? && State() == old(State())
      ensures id.None? ==> r == Some(Registry.NextId(old(State())))
      ensures id.None? ==> State() == Registry.Added(old(State()), NewQuery(q, Registry.NextId(old(State()))))
      ensures old(Valid()) ==> Valid()
    {
      if id.Some? {
        if id.value in list {
          list := list[id.value := Extend(list[id.value], q)];
          r := id;
        } else {
          r := None;
        }
      } else {
        ghost var before := State();
        var n := NextId();
        list := list[n := NewQuery(q, n)];
        ids := ids + [n];
        r := Some(n);
        assert State() == Registry.Added(before, NewQuery(q, n));
        if Registry.Valid(before) { Registry.AddedValid(before, NewQuery(q, n)); }
      }
    }

    /** `remove(id)`: false when absent; otherwise the record is deleted and its
        id queued for reuse. */
    method Remove(id: nat) returns (ok: bool)
      modifies this
      ensures ok == (id in old(list))
      ensures State() == Registry.Released(old(State()), id)
      ensures id !in list
      ensures old(Valid()) ==> Valid()
    {
      if id in list {
        ghost var before := State();
        list := list - {id};
        ids := Without(ids, id);
        idQueue := Registry.Requeued(idQueue, id);
        ok := true;
        if Registry.Valid(before) { Registry.ReleasedValid(before, id); }
      } else {
        ok := false;
      }
    }
  }
}
