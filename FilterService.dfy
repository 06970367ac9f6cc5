/** The `filterSrv` service: the registry of dashboard filters, with the
    filter flavour's defaults, the by-type queries, the time window of the
    active time filters and the boolean filter that combines them. */
module FilterService {
  import opened Values
  import opened Seqs
  import opened Ejs
  import Registry

  /** `_.defaults(filter, {mandate:'must'}); filter.active = true`: what `set`
      does to its argument before anything else, with or without an id. */
  function FilterArg(f: Record): (r: Record)
    ensures r.Keys == f.Keys + {"mandate", "active"}
    ensures r["active"] == Bool(true)
    ensures r["mandate"] == if "mandate" in f then f["mandate"] else Str("must")
    ensures forall k :: k in f && k != "active" ==> r[k] == f[k]
  {
    Defaults(f, map["mandate" := Str("must")])["active" := Bool(true)]
  }

  /** The record an id-less `set(f)` stores under `id`. */
  function NewFilter(f: Record, id: nat): (r: Record)
    ensures r.Keys == f.Keys + {"mandate", "active", "alias", "id"}
    ensures r["active"] == Bool(true)
    ensures forall k :: k in f && k != "active" ==> r[k] == f[k]
    ensures "mandate" !in f ==> r["mandate"] == Str("must")
    ensures "alias" !in f ==> r["alias"] == Str("")
    ensures "id" !in f ==> r["id"] == Num(id)
  {
    Defaults(FilterArg(f), map["alias" := Str(""), "id" := Num(id)])
  }

  /** The `_.where` pattern of `idsByType(type, inactive)`: `{type}` when
      inactive filters are wanted, `{type, active: true}` otherwise. */
  predicate Matches(f: Record, kind: string, inactive: bool)
    ensures Matches(f, kind, inactive) ==> Get(f, "type") == Some(Str(kind))
    ensures inactive ==> (Matches(f, kind, inactive) <==> Get(f, "type") == Some(Str(kind)))
  {
    Get(f, "type") == Some(Str(kind)) && (inactive || Get(f, "active") == Some(Bool(true)))
  }

  /** The keys of `keys`, in order, whose records match. */
  function Where(list: map<nat, Record>, keys: seq<nat>, kind: string, inactive: bool): (r: seq<nat>)
    ensures forall k :: k in r <==> k in keys && k in list && Matches(list[k], kind, inactive)
    ensures StrictlyAscending(keys) ==> StrictlyAscending(r)
    decreases |keys|
  {
    if keys == [] then []
    else
      var rest := Where(list, keys[1..], kind, inactive);
      assert forall k :: k in keys <==> k == keys[0] || k in keys[1..] by {
        assert keys == [keys[0]] + keys[1..];
      }
      if keys[0] in list && Matches(list[keys[0]], kind, inactive) then
        assert StrictlyAscending(keys) ==> StrictlyAscending([keys[0]] + rest) by {
          if StrictlyAscending(keys) {
            forall y | y in rest ensures keys[0] < y {
              var j :| 1 <= j < |keys| && keys[j] == y;
            }
            ConsAscending(keys[0], rest);
          }
        }
        [keys[0]] + rest
      else rest
  }

  /** `idsByType(type, inactive)`: the ids of the matching filters, in the
      ascending order the enumeration of `list` visits them. */
  function IdsByType(list: map<nat, Record>, kind: string, inactive: bool): (r: seq<nat>)
    ensures forall k :: k in r <==> k in list && Matches(list[k], kind, inactive)
    ensures StrictlyAscending(r)
  {
    Where(list, AscendingKeys(list.Keys), kind, inactive)
  }

  /** `getByType(type, inactive)`: `_.pick(list, idsByType(type, inactive))`. */
  function GetByType(list: map<nat, Record>, kind: string, inactive: bool): (r: map<nat, Record>)
    ensures forall k :: k in r <==> k in list && Matches(list[k], kind, inactive)
    ensures forall k :: k in r ==> r[k] == list[k]
  {
    Pick(list, IdsByType(list, kind, inactive))
  }

  /** `_.pick(list, ks)` for keys that are present. */
  function Pick(list: map<nat, Record>, ks: seq<nat>): (r: map<nat, Record>)
    requires forall k :: k in ks ==> k in list
    ensures forall k :: k in r <==> k in ks
    ensures forall k :: k in r ==> r[k] == list[k]
  {
    map k | k in ks :: list[k]
  }

  /** An active time filter. */
  predicate ActiveTime(f: Record)
  {
    Matches(f, "time", false)
  }

  /** A filter whose bounds are numbers (the `Date`s `init` builds). */
  predicate HasBounds(f: Record)
  {
    "from" in f && f["from"].Num? && "to" in f && f["to"].Num?
  }

  function From(f: Record): int
    requires HasBounds(f)
  {
    f["from"].n
  }

  function To(f: Record): int
    requires HasBounds(f)
  {
    f["to"].n
  }

  /** Every active time filter has numeric bounds. */
  predicate TimesNumeric(list: map<nat, Record>)
  {
    forall k :: k in list && ActiveTime(list[k]) ==> HasBounds(list[k])
  }

  /** `_.pluck(records, 'from')` or `_.pluck(records, 'to')`. */
  function Pluck(list: map<nat, Record>, ks: seq<nat>, upper: bool): (r: seq<int>)
    requires forall k :: k in ks ==> k in list && HasBounds(list[k])
    ensures |r| == |ks|
    ensures forall i :: 0 <= i < |ks| ==> r[i] == if upper then To(list[ks[i]]) else From(list[ks[i]])
    decreases |ks|
  {
    if ks == [] then []
    else [if upper then To(list[ks[0]]) else From(list[ks[0]])] + Pluck(list, ks[1..], upper)
  }

  /** The maximum and minimum of a plucked list are attained by some record of
      it and bound all of them. */
  lemma PluckExtremes(list: map<nat, Record>, ks: seq<nat>, upper: bool)
    requires ks != []
    requires forall k :: k in ks ==> k in list && HasBounds(list[k])
    ensures var r := Pluck(list, ks, upper);
      && (exists k :: k in ks && Max(r) == if upper then To(list[k]) else From(list[k]))
      && (exists k :: k in ks && Min(r) == if upper then To(list[k]) else From(list[k]))
      && (forall k :: k in ks ==> Min(r) <= (if upper then To(list[k]) else From(list[k])) <= Max(r))
  {
    var r := Pluck(list, ks, upper);
    var i :| 0 <= i < |r| && r[i] == Max(r);
    assert ks[i] in ks;
    var j :| 0 <= j < |r| && r[j] == Min(r);
    assert ks[j] in ks;
    forall k | k in ks ensures Min(r) <= (if upper then To(list[k]) else From(list[k])) <= Max(r) {
      var m :| 0 <= m < |ks| && ks[m] == k;
      assert r[m] in r;
    }
  }

  datatype Window = Window(from: int, to: int)

  /** `timeRange(mode)` over the active time filters: `"min"` is the
      narrowest window (latest start, earliest end), `"max"` the widest; false
      (None) when there is none or the mode is unknown. */
  function TimeRange(list: map<nat, Record>, mode: string): (w: Option<Window>)
    requires TimesNumeric(list)
    ensures w.None? <==> (forall k :: k in list ==> !ActiveTime(list[k])) || (mode != "min" && mode != "max")
    ensures w.Some? ==>
      && (exists k :: k in list && ActiveTime(list[k]) && w.value.from == From(list[k]))
      && (exists k :: k in list && ActiveTime(list[k]) && w.value.to == To(list[k]))
    ensures w.Some? && mode == "min" ==> forall k :: k in list && ActiveTime(list[k]) ==>
      From(list[k]) <= w.value.from && w.value.to <= To(list[k])
    ensures w.Some? && mode == "max" ==> forall k :: k in list && ActiveTime(list[k]) ==>
      w.value.from <= From(list[k]) && To(list[k]) <= w.value.to
  {
    var ts := IdsByType(list, "time", false);
    if ts == [] then
      assert forall k :: k in list ==> !ActiveTime(list[k]);
      None
    else
      PluckExtremes(list, ts, false);
      PluckExtremes(list, ts, true);
      var froms, tos := Pluck(list, ts, false), Pluck(list, ts, true);
      if mode == "min" then Some(Window(Max(froms), Min(tos)))
      else if mode == "max" then Some(Window(Min(froms), Max(tos)))
      else None
  }

  /** The `type`s `toEjsObj` translates. */
  const Translated: set<Option<Value>> :=
    {Some(Str("time")), Some(Str("range")), Some(Str("querystring")),
     Some(Str("terms")), Some(Str("exists")), Some(Str("missing"))}

  /** `toEjsObj(filter)`: false (NoFilter) unless the filter is active and of a
      known type; a time or range filter becomes a range filter over its field
      and bounds, a querystring filter a cached query filter, and terms, exists
      and missing filters the filter of the same name over the record's fields. */
  function ToEjsObj(f: Record): (e: Ejs)
    ensures e.NoFilter? <==> !Truthy(Get(f, "active")) || Get(f, "type") !in Translated
    ensures e.RangeFilter? <==> Truthy(Get(f, "active")) && Get(f, "type") in {Some(Str("time")), Some(Str("range"))}
    ensures e.RangeFilter? ==> e.field == Get(f, "field") && e.from == Get(f, "from") && e.to == Get(f, "to")
    ensures e.QueryFilter? <==> Truthy(Get(f, "active")) && Get(f, "type") == Some(Str("querystring"))
    ensures e.QueryFilter? ==> e.cached && e.inner == QueryStringQuery(Get(f, "query"))
    ensures e.TermsFilter? <==> Truthy(Get(f, "active")) && Get(f, "type") == Some(Str("terms"))
    ensures e.TermsFilter? ==> e.field == Get(f, "field") && e.values == Get(f, "value")
    ensures e.ExistsFilter? <==> Truthy(Get(f, "active")) && Get(f, "type") == Some(Str("exists"))
    ensures e.MissingFilter? <==> Truthy(Get(f, "active")) && Get(f, "type") == Some(Str("missing"))
    ensures e.ExistsFilter? || e.MissingFilter? ==> e.field == Get(f, "field")
    ensures !e.MatchAllFilter? && !e.BoolFilter? && !e.QueryStringQuery?
  {
    if !Truthy(Get(f, "active")) then NoFilter
    else match Get(f, "type")
      case Some(Str("time")) => RangeFilter(Get(f, "field"), Get(f, "from"), Get(f, "to"))
      case Some(Str("range")) => RangeFilter(Get(f, "field"), Get(f, "from"), Get(f, "to"))
      case Some(Str("querystring")) => QueryFilter(QueryStringQuery(Get(f, "query")), true)
      case Some(Str("terms")) => TermsFilter(Get(f, "field"), Get(f, "value"))
      case Some(Str("exists")) => ExistsFilter(Get(f, "field"))
      case Some(Str("missing")) => MissingFilter(Get(f, "field"))
      case _ => NoFilter
  }

  /** Where `getBoolFilter` puts a filter: its `mandate` switch. */
  datatype Mandate = MustClause | MustNotClause | EitherClause

  function MandateOf(f: Record): (m: Mandate)
    ensures m == MustNotClause <==> Get(f, "mandate") == Some(Str("mustNot"))
    ensures m == EitherClause <==> Get(f, "mandate") == Some(Str("either"))
  {
    match Get(f, "mandate")
    case Some(Str("mustNot")) => MustNotClause
    case Some(Str("either")) => EitherClause
    case _ => MustClause
  }

  /** An active filter of the given mandate. */
  predicate Contributes(f: Record, m: Mandate)
  {
    Truthy(Get(f, "active")) && MandateOf(f) == m
  }

  /** The clauses the active filters of `ids` with mandate `m` contribute, in
      the order of `ids`. */
  function Part(list: map<nat, Record>, ids: seq<nat>, m: Mandate): (r: seq<Ejs>)
    requires forall id :: id in ids ==> id in list
    ensures forall e :: e in r <==> exists id :: id in ids && Contributes(list[id], m) && e == ToEjsObj(list[id])
    decreases |ids|
  {
    if ids == [] then []
    else
      var n := |ids| - 1;
      var rest := Part(list, ids[..n], m);
      assert forall id :: id in ids <==> id in ids[..n] || id == ids[n] by {
        assert ids == ids[..n] + [ids[n]];
      }
      if Contributes(list[ids[n]], m) then rest + [ToEjsObj(list[ids[n]])] else rest
  }

  /** `getBoolFilter(ids)`: must-match-all plus the `must` clauses plus the
      `either` bool (itself seeded with match-all), with the `mustNot`
      clauses beside them. */
  function BoolFilterOf(list: map<nat, Record>, ids: seq<nat>): (r: Ejs)
    requires forall id :: id in ids ==> id in list
    ensures r.BoolFilter? && r.should == [] && |r.must| >= 2
    ensures r.must[0] == MatchAllFilter
    ensures r.must[|r.must| - 1] == BoolFilter([MatchAllFilter], [], Part(list, ids, EitherClause))
    ensures forall e :: e in r.mustNot <==>
      exists id :: id in ids && Contributes(list[id], MustNotClause) && e == ToEjsObj(list[id])
  {
    BoolFilter([MatchAllFilter] + Part(list, ids, MustClause)
               + [BoolFilter([MatchAllFilter], [], Part(list, ids, EitherClause))],
               Part(list, ids, MustNotClause), [])
  }

  /** A property holds of every clause of a part exactly when it holds of
      the translation of every contributing filter. */
  lemma PartForall(list: map<nat, Record>, ids: seq<nat>, m: Mandate, p: Ejs -> bool)
    requires forall id :: id in ids ==> id in list
    ensures (forall f :: f in Part(list, ids, m) ==> p(f)) <==>
      (forall id :: id in ids && Contributes(list[id], m) ==> p(ToEjsObj(list[id])))
  {
  }

  /** Some clause of a part has a property exactly when the translation of
      some contributing filter has it. */
  lemma PartExists(list: map<nat, Record>, ids: seq<nat>, m: Mandate, p: Ejs -> bool)
    requires forall id :: id in ids ==> id in list
    ensures (exists f :: f in Part(list, ids, m) && p(f)) <==>
      (exists id :: id in ids && Contributes(list[id], m) && p(ToEjsObj(list[id])))
    ensures Part(list, ids, m) == [] <==> forall id :: id in ids ==> !Contributes(list[id], m)
  {
  }

  /** A document passes `getBoolFilter(ids)` exactly when it passes every
      active `must` filter (any mandate but mustNot and either), fails every
      active `mustNot` filter, and passes some active `either` filter, if there
      is one. Inactive filters play no part. */
  lemma BoolFilterMeaning(list: map<nat, Record>, ids: seq<nat>, leaf: Ejs -> bool)
    requires forall id :: id in ids ==> id in list
    ensures Eval(BoolFilterOf(list, ids), leaf) <==>
      && (forall id :: id in ids && Contributes(list[id], MustClause) ==> Eval(ToEjsObj(list[id]), leaf))
      && (forall id :: id in ids && Contributes(list[id], MustNotClause) ==> !Eval(ToEjsObj(list[id]), leaf))
      && ((forall id :: id in ids ==> !Contributes(list[id], EitherClause))
          || exists id :: id in ids && Contributes(list[id], EitherClause) && Eval(ToEjsObj(list[id]), leaf))
  {
    var must, either, mustNot := Part(list, ids, MustClause), Part(list, ids, EitherClause), Part(list, ids, MustNotClause);
    var eitherBool := BoolFilter([MatchAllFilter], [], either);
    var holds := (e: Ejs) => Eval(e, leaf);
    var fails := (e: Ejs) => !Eval(e, leaf);
    EvalBool([MatchAllFilter] + must + [eitherBool], mustNot, [], leaf);
    MustClauses(must, eitherBool, leaf);
    EitherMeaning(either, leaf);
    PartForall(list, ids, MustClause, holds);
    PartForall(list, ids, MustNotClause, fails);
    PartExists(list, ids, EitherClause, holds);
  }

  /** The `must` list of `getBoolFilter`: match-all, the must clauses, and the
      either bool. */
  lemma MustClauses(must: seq<Ejs>, eitherBool: Ejs, leaf: Ejs -> bool)
    ensures (forall f :: f in [MatchAllFilter] + must + [eitherBool] ==> Eval(f, leaf)) <==>
      (forall f :: f in must ==> Eval(f, leaf)) && Eval(eitherBool, leaf)
  {
  }

  /** The either bool, seeded with match-all, holds when it has no other
      `should` clause or one of them holds. */
  lemma EitherMeaning(either: seq<Ejs>, leaf: Ejs -> bool)
    ensures Eval(BoolFilter([MatchAllFilter], [], either), leaf) <==>
      either == [] || exists f :: f in either && Eval(f, leaf)
  {
    EvalBool([MatchAllFilter], [], either, leaf);
    assert forall f :: f in [MatchAllFilter] ==> Eval(f, leaf);
  }

  /** The filters `removeByType(type)` leaves: all but the active ones of the type. */
  function RemainingAfter(list: map<nat, Record>, kind: string): (r: map<nat, Record>)
    ensures forall k :: k in r ==> !Matches(r[k], kind, false)
    ensures forall k :: k in list && !Matches(list[k], kind, false) ==> k in r && r[k] == list[k]
    ensures r.Keys <= list.Keys
  {
    map k | k in list && !Matches(list[k], kind, false) :: list[k]
  }

  /** Releasing the active filters of a type, one by one, leaves exactly the
      others, untouched; inactive filters of that type remain. */
  lemma RemovedByType(t: Registry.Table, kind: string)
    ensures Registry.ReleasedAll(t, IdsByType(t.list, kind, false)).list == RemainingAfter(t.list, kind)
  {
    var ks := IdsByType(t.list, kind, false);
    var u := Registry.ReleasedAll(t, ks).list;
    var r := RemainingAfter(t.list, kind);
    Registry.ReleasedAllList(t, ks);
    assert forall k :: k in u <==> k in r by {
      forall k ensures k in u <==> k in r {
        assert k in ks <==> k in t.list && Matches(t.list[k], kind, false);
      }
    }
    assert forall k :: k in u ==> u[k] == r[k];
    SameMap(u, r);
  }

  lemma SameMap(u: map<nat, Record>, r: map<nat, Record>)
    requires forall k :: k in u <==> k in r
    requires forall k :: k in u ==> u[k] == r[k]
    ensures u == r
  {
  }

  /** The filter registry; its three fields are `services.filter` of the
      current dashboard. */
  class FilterSrv {
    var list: map<nat, Record>
    var ids: seq<nat>
    var idQueue: seq<nat>

    function State(): Registry.Table
      reads this
    {
      Registry.Table(list, ids, idQueue)
    }

    ghost predicate Valid()
      reads this
    {
      Registry.Valid(State())
    }

    constructor ()
      ensures State() == Registry.Empty
    {
      list, ids, idQueue := map[], [], [];
    }

    /** `init()`: bind to the dashboard's slice; unlike `querySrv.init` it
        adds nothing. */
    method Init(slice: Registry.Table)
      modifies this
      ensures State() == slice
    {
      list, ids, idQueue := slice.list, slice.ids, slice.idQueue;
    }

    /** `nextId()`, as for queries. */
    method NextId() returns (id: nat)
      modifies this`idQueue
      ensures id == Registry.NextId(old(State()))
      ensures State() == Registry.Minted(old(State()))
    {
      if |idQueue| > 0 {
        id := idQueue[0];
        idQueue := idQueue[1..];
      } else {
        id := |ids|;
      }
    }

    /** `set(filter, id)`: the argument is made active and given mandate
        `'must'` when it has none; with an id it is merged into that filter
        (false when absent), so an update without a mandate resets the stored
        one to `'must'`; without one it is stored under a fresh id, unless it
        has no `type`. */
    method Set(f: Record, id: Option<nat>) returns (r: Option<nat>)
      modifies this
      ensures id.Some? && id.value in old(list) ==> r == id && State() == Registry.Merged(old(State()), id.value, FilterArg(f))
      ensures id.Some? && id.value in old(list) ==>
        && list[id.value]["active"] == Bool(true)
        && list[id.value]["mandate"] == (if "mandate" in f then f["mandate"] else Str("must"))
      ensures id.Some? && id.value !in old(list) ==> r.None? && State() == old(State())
      ensures id.None? && "type" !in f ==> r.None? && State() == old(State())
      ensures id.None? && "type" in f ==> r == Some(Registry.NextId(old(State())))
      ensures id.None? && "type" in f ==> State() == Registry.Added(old(State()), NewFilter(f, Registry.NextId(old(State()))))
      ensures old(Valid()) ==> Valid()
    {
      var g := FilterArg(f);
      if id.Some? {
        if id.value in list {
          list := list[id.value := Extend(list[id.value], g)];
          r := id;
        } else {
          r := None;
        }
      } else if "type" !in g {
        r := None;
      } else {
        ghost var before := State();
        var n := NextId();
        list := list[n := NewFilter(f, n)];
        ids := ids + [n];
        r := Some(n);
        assert State() == Registry.Added(before, NewFilter(f, n));
        if Registry.Valid(before) { Registry.AddedValid(before, NewFilter(f, n)); }
      }
    }

    /** `remove(id)`, as for queries. */
    method Remove(id: nat) returns (ok: bool)
      modifies this
      ensures ok == (id in old(list))
      ensures State() == Registry.Released(old(State()), id)
      ensures id !in list
      ensures old(Valid()) ==> Valid()
    {
      if id in list {
        ghost var before := State();
        list := list - {id};
        ids := Without(ids, id);
        idQueue := Registry.Requeued(idQueue, id);
        ok := true;
        if Registry.Valid(before) { Registry.ReleasedValid(before, id); }
      } else {
        ok := false;
      }
    }

    /** `removeByType(type)`: remove every active filter of the type, one by
        one, and return their ids. */
    method RemoveByType(kind: string) returns (removed: seq<nat>)
      modifies this
      ensures removed == IdsByType(old(list), kind, false)
      ensures State() == Registry.ReleasedAll(old(State()), removed)
      ensures list == RemainingAfter(old(list), kind)
      ensures old(Valid()) ==> Valid()
    {
      var ks := IdsByType(list, kind, false);
      ghost var start := State();
      for i := 0 to |ks|
        invariant State() == Registry.ReleasedAll(start, ks[..i])
      {
        var _ := Remove(ks[i]);
        Registry.ReleasedAllSnoc(start, ks, i);
      }
      assert ks[..|ks|] == ks;
      removed := ks;
      RemovedByType(start, kind);
      if Registry.Valid(start) { Registry.ReleasedAllValid(start, ks); }
    }

    /** `getBoolFilter(ids)` over filters that exist, built clause by clause. */
    method GetBoolFilter(sel: seq<nat>) returns (r: Ejs)
      requires forall id :: id in sel ==> id in list
      ensures r == BoolFilterOf(list, sel)
    {
      var boolF := BoolFilter([MatchAllFilter], [], []);
      var either := BoolFilter([MatchAllFilter], [], []);
      for i := 0 to |sel|
        invariant boolF == BoolFilter([MatchAllFilter] + Part(list, sel[..i], MustClause), Part(list, sel[..i], MustNotClause), [])
        invariant either == BoolFilter([MatchAllFilter], [], Part(list, sel[..i], EitherClause))
      {
        assert sel[..i + 1][..i] == sel[..i];
        var f := list[sel[i]];
        if Truthy(Get(f, "active")) {
          var mandate := Get(f, "mandate");
          if mandate == Some(Str("mustNot")) {
            boolF := MustNot(boolF, ToEjsObj(f));
          } else if mandate == Some(Str("either")) {
            either := Should(either, ToEjsObj(f));
          } else {
            boolF := Must(boolF, ToEjsObj(f));
          }
        }
      }
      assert sel[..|sel|] == sel;
      r := Must(boolF, either);
    }
  }
}
