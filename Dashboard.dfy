/** The `dashboard` service's decisions: which source a route loads the
    dashboard from, which indices a refresh makes active, and what loading a
    dashboard does to the timers, the index list and the two registries.
    Fetching from Elasticsearch, from a file or from a gist is not modelled;
    the index catalog and the browser's storage are parameters. */
module Dashboard {
  import opened Values
  import opened Seqs
  import Registry
  import KbnIndex
  import QueryService
  import FilterService
  import Timer

  /** Where `route` loads the dashboard from. */
  datatype Source =
    | Elasticsearch(kind: string, id: string)
    | File(name: string)
    /** The JSON saved under `localStorage['dashboard']`. */
    | Stored(json: string)

  /** `route()`: a type and id in the URL name the source (unknown types fall
      back to `default.json`); without them, a non-empty saved dashboard in a
      browser that supports local storage wins, and `default.json` otherwise. */
  function Route(kind: Option<string>, id: Option<string>, storage: bool, saved: Option<string>): (s: Source)
    ensures s.Elasticsearch? <==> kind.Some? && id.Some? && kind.value in {"elasticsearch", "temp"}
    ensures s.Elasticsearch? ==> s.id == id.value && s.kind == if kind.value == "temp" then "temp" else "dashboard"
    ensures s.Stored? <==> (kind.None? || id.None?) && storage && saved.Some? && saved.value != ""
    ensures s.Stored? ==> s.json == saved.value
    ensures s.File? && s.name != "default.json" ==> kind == Some("file") && id == Some(s.name)
    ensures kind.Some? && id.Some? && kind.value !in {"elasticsearch", "temp", "file"} ==> s == File("default.json")
    ensures kind == Some("file") && id.Some? ==> s == File(id.value)
  {
    if kind.Some? && id.Some? then
      match kind.value
      case "elasticsearch" => Elasticsearch("dashboard", id.value)
      case "temp" => Elasticsearch("temp", id.value)
      case "file" => File(id.value)
      case _ => File("default.json")
    else if storage && saved.Some? && saved.value != "" then Stored(saved.value)
    else File("default.json")
  }

  /** `dashboard.index`: the time-based index scheme. */
  datatype IndexSettings = IndexSettings(interval: string, pattern: string, default: string)

  /** `dashboard.services`: the registries' slices, when present. */
  datatype Services = Services(query: Option<Registry.Table>, filter: Option<Registry.Table>)

  datatype Document = Document(title: string, editable: bool, rows: seq<Record>, services: Services, index: IndexSettings)

  /** A parsed dashboard, whose top-level fields may be missing. */
  datatype Partial = Partial(title: Option<string>, editable: Option<bool>, rows: Option<seq<Record>>,
                             services: Option<Services>, index: Option<IndexSettings>)

  /** `_dash`. */
  const DefaultDocument := Document("", true, [], Services(None, None), IndexSettings("none", "_all", "_all"))

  /** `_.defaults(dashboard, _dash)`: each missing top-level field from `_dash`;
      a present `index` or `services` is kept whole. */
  function WithDefaults(p: Partial): (d: Document)
    ensures d.title == if p.title.Some? then p.title.value else ""
    ensures d.editable == if p.editable.Some? then p.editable.value else true
    ensures d.rows == if p.rows.Some? then p.rows.value else []
    ensures d.services == if p.services.Some? then p.services.value else Services(None, None)
    ensures d.index == if p.index.Some? then p.index.value else IndexSettings("none", "_all", "_all")
  {
    Document(
      if p.title.Some? then p.title.value else DefaultDocument.title,
      if p.editable.Some? then p.editable.value else DefaultDocument.editable,
      if p.rows.Some? then p.rows.value else DefaultDocument.rows,
      if p.services.Some? then p.services.value else DefaultDocument.services,
      if p.index.Some? then p.index.value else DefaultDocument.index)
  }

  /** The outcome of `refresh()`: the new `indices` when it broadcasts
      `'refresh'`, or None when the index catalog request fails and nothing
      happens. The default index is used with no time-based indices, with no
      active time filter, and when no candidate index exists. */
  function RefreshOutcome(index: IndexSettings, filters: map<nat, Record>, catalog: Option<seq<string>>,
                          step: KbnIndex.Step, format: KbnIndex.Format): (r: Option<seq<string>>)
    requires FilterService.TimesNumeric(filters)
    ensures r.None? <==> index.interval != "none" && FilterService.IdsByType(filters, "time", false) != [] && catalog.None?
    ensures index.interval == "none" ==> r == Some([index.default])
    ensures FilterService.IdsByType(filters, "time", false) == [] ==> r == Some([index.default])
    ensures r.Some? ==> r.value != []
    ensures r.Some? && r.value != [index.default] ==>
      && catalog.Some?
      && NoDup(r.value)
      && forall x :: x in r.value ==> x in catalog.value
  {
    if index.interval != "none" then
      if FilterService.IdsByType(filters, "time", false) != [] then
        match catalog
        case None => None
        case Some(cat) =>
          var w := FilterService.TimeRange(filters, "min").value;
          var p := KbnIndex.Resolved(KbnIndex.Candidates(w.from, w.to, index.pattern, index.interval, step, format), cat);
          KbnIndex.ResolvedMeaning(KbnIndex.Candidates(w.from, w.to, index.pattern, index.interval, step, format), cat);
          if |p| > 0 then Some(p) else Some([index.default])
      else Some([index.default])
    else Some([index.default])
  }

  /** The time-based candidates a refresh resolves are those of the narrowest
      window of the active time filters. */
  lemma RefreshUsesNarrowestWindow(index: IndexSettings, filters: map<nat, Record>, cat: seq<string>,
                                   step: KbnIndex.Step, format: KbnIndex.Format)
    requires FilterService.TimesNumeric(filters)
    requires index.interval != "none" && exists k :: k in filters && FilterService.ActiveTime(filters[k])
    ensures FilterService.TimeRange(filters, "min").Some?
    ensures forall k :: k in filters && FilterService.ActiveTime(filters[k]) ==>
      && FilterService.From(filters[k]) <= FilterService.TimeRange(filters, "min").value.from
      && FilterService.TimeRange(filters, "min").value.to <= FilterService.To(filters[k])
    ensures var w := FilterService.TimeRange(filters, "min").value;
      var p := KbnIndex.Resolved(KbnIndex.Candidates(w.from, w.to, index.pattern, index.interval, step, format), cat);
      RefreshOutcome(index, filters, Some(cat), step, format) == Some(if p != [] then p else [index.default])
  {
    var k :| k in filters && FilterService.ActiveTime(filters[k]);
    assert k in FilterService.IdsByType(filters, "time", false);
    var w := FilterService.TimeRange(filters, "min").value;
    var p := KbnIndex.Resolved(KbnIndex.Candidates(w.from, w.to, index.pattern, index.interval, step, format), cat);
    RefreshTimeBased(index, filters, Some(cat), step, format, Some(p));
  }

  /** With time-based indices and an active time filter, the outcome of a
      refresh is what `indices` resolves for the narrowest window. */
  lemma RefreshTimeBased(index: IndexSettings, filters: map<nat, Record>, catalog: Option<seq<string>>,
                         step: KbnIndex.Step, format: KbnIndex.Format, p: Option<seq<string>>)
    requires FilterService.TimesNumeric(filters)
    requires index.interval != "none" && FilterService.IdsByType(filters, "time", false) != []
    requires FilterService.TimeRange(filters, "min").Some?
    requires var w := FilterService.TimeRange(filters, "min").value;
      && (p.None? <==> catalog.None?)
      && (p.Some? ==> p.value == KbnIndex.Resolved(KbnIndex.Candidates(w.from, w.to, index.pattern, index.interval, step, format), catalog.value))
    ensures var o := RefreshOutcome(index, filters, catalog, step, format);
      && (o.Some? <==> p.Some?)
      && (o.Some? ==> o.value == if |p.value| > 0 then p.value else [index.default])
  {
  }

  /** The dashboard service's state. The registries and the timer are the
      injected services; `injected` records whether they have been built. */
  class Dashboard {
    var current: Option<Document>
    var indices: seq<string>
    var injected: bool
    const timer: Timer.Timer
    const querySrv: QueryService.QuerySrv
    const filterSrv: FilterService.FilterSrv

    constructor ()
      ensures current.None? && indices == [] && !injected
      ensures fresh(timer) && fresh(querySrv) && fresh(filterSrv)
      ensures timer.timers == [] && querySrv.State() == Registry.Empty && filterSrv.State() == Registry.Empty
    {
      current := None;
      indices := [];
      injected := false;
      timer := new Timer.Timer();
      querySrv := new QueryService.QuerySrv();
      filterSrv := new FilterService.FilterSrv();
    }

    /** `refresh()`, given the catalog the cluster reports (None when that
        request fails), the calendar step and the index name format; returns
        whether `'refresh'` is broadcast. */
    method Refresh(catalog: Option<seq<string>>, step: KbnIndex.Step, format: KbnIndex.Format) returns (refreshed: bool)
      requires current.Some? && injected
      requires FilterService.TimesNumeric(filterSrv.list)
      modifies this`indices
      ensures var o := RefreshOutcome(old(current.value.index), filterSrv.list, catalog, step, format);
        && refreshed == o.Some?
        && indices == if o.Some? then o.value else old(indices)
    {
      var index := current.value.index;
      if index.interval != "none" && |FilterService.IdsByType(filterSrv.list, "time", false)| > 0 {
        var range := FilterService.TimeRange(filterSrv.list, "min");
        var p := KbnIndex.Indices(range.value.from, range.value.to, index.pattern, index.interval, step, format, catalog);
        RefreshTimeBased(index, filterSrv.list, catalog, step, format, p);
        if p.Some? {
          indices := if |p.value| > 0 then p.value else [index.default];
        }
        refreshed := p.Some?;
      } else {
        indices := [index.default];
        refreshed := true;
      }
    }

    /** `dash_load(dashboard)`: cancel every timer, use the default index when
        the dashboard has no time-based indices, make it current, re-init both
        registries from its slices (the first load builds the services, which
        fill in missing slices), and refresh when time-based indices are wanted
        but no time filter is active. Returns whether `'refresh'` was
        broadcast; `dash_load` itself always returns true. */
    method DashLoad(doc: Document, catalog: Option<seq<string>>, step: KbnIndex.Step, format: KbnIndex.Format)
      returns (ok: bool, refreshed: bool)
      requires injected ==> doc.services.query.Some? && doc.services.filter.Some?
      modifies this, timer, querySrv, filterSrv
      ensures ok
      ensures timer.timers == [] && timer.cancelled == old(timer.cancelled) + old(timer.timers)
      ensures current == Some(doc) && injected
      ensures querySrv.State() == QueryService.Seeded(SliceOf(doc.services.query))
      ensures filterSrv.State() == SliceOf(doc.services.filter)
      ensures refreshed <==> doc.index.interval != "none" && FilterService.IdsByType(filterSrv.list, "time", false) == []
      ensures doc.index.interval == "none" || refreshed ==> indices == [doc.index.default]
      ensures doc.index.interval != "none" && !refreshed ==> indices == old(indices)
    {
      timer.CancelAll();
      if doc.index.interval == "none" {
        indices := [doc.index.default];
      }
      current := Some(doc);
      querySrv.Init(SliceOf(doc.services.query));
      filterSrv.Init(SliceOf(doc.services.filter));
      injected := true;
      refreshed := false;
      if doc.index.interval != "none" && |FilterService.IdsByType(filterSrv.list, "time", false)| == 0 {
        refreshed := Refresh(catalog, step, format);
      }
      ok := true;
    }

    /** The `$routeChangeSuccess` handler: forget the current dashboard and its
        indices, then `route()`. A saved dashboard is loaded at once from
        `parsed`, what `JSON.parse` makes of it; the other sources are fetched
        (not modelled) and the source is returned. */
    method OnRouteChange(kind: Option<string>, id: Option<string>, storage: bool, saved: Option<string>,
                         parsed: Partial, catalog: Option<seq<string>>, step: KbnIndex.Step, format: KbnIndex.Format)
      returns (s: Source)
      requires Route(kind, id, storage, saved).Stored? && injected ==>
        WithDefaults(parsed).services.query.Some? && WithDefaults(parsed).services.filter.Some?
      modifies this, timer, querySrv, filterSrv
      ensures s == Route(kind, id, storage, saved)
      ensures !s.Stored? ==> current.None? && indices == [] && injected == old(injected)
      ensures !s.Stored? ==> unchanged(timer, querySrv, filterSrv)
      ensures s.Stored? ==> current == Some(WithDefaults(parsed)) && injected
      ensures s.Stored? ==> timer.timers == [] && timer.cancelled == old(timer.cancelled) + old(timer.timers)
      ensures s.Stored? ==> querySrv.State() == QueryService.Seeded(SliceOf(WithDefaults(parsed).services.query))
      ensures s.Stored? ==> filterSrv.State() == SliceOf(WithDefaults(parsed).services.filter)
      ensures s.Stored? ==> var ix := WithDefaults(parsed).index;
        indices == if ix.interval == "none" || FilterService.IdsByType(filterSrv.list, "time", false) == []
                   then [ix.default] else []
    {
      current := None;
      indices := [];
      s := Route(kind, id, storage, saved);
      if s.Stored? {
        var _, _ := DashLoad(WithDefaults(parsed), catalog, step, format);
      }
    }
  }

  /** A document's slice, or the empty one the service constructor fills in. */
  function SliceOf(t: Option<Registry.Table>): (r: Registry.Table)
    ensures t.Some? ==> r == t.value
    ensures t.None? ==> r == Registry.Empty
  {
    if t.Some? then t.value else Registry.Empty
  }
}
