# Kibana dashboard services, modelled in Dafny

This project models the in-memory coordination logic of `js/services.js`, the
Angular services behind a Kibana 3 dashboard:

- **eventBus**: the packet `broadcast` builds (its data defaults to the
  sender) and the addressing test `register` puts in front of every handler.
  A listener never hears itself. Otherwise it hears a packet when a group is
  shared, when it is named, or when `"ALL"` appears on either side.
- **querySrv** and **filterSrv**: two registries over the same
  id-allocating table (`list`, `ids`, `idQueue`). An id-less `set` takes the
  smallest released id, or `ids.length` when none is queued. `remove` puts the
  id back on the queue, kept ascending. `Registry.Valid` is the invariant both
  keep:
  - live ids are distinct and are the keys of `list`;
  - queued ids are ascending and not live;
  - live and queued ids together are `0 .. N-1`.

  On top of the table come the flavours:
  - query defaults, the 56-colour palette, and `findQuery`;
  - filter defaults (`active`, `mandate`);
  - `idsByType`/`getByType`/`removeByType`;
  - the `timeRange` window;
  - `getBoolFilter`'s must / mustNot / either combination, built as a tree
    (`Ejs.Ejs`). `Ejs.Eval` gives that tree its boolean meaning.
- **kbnIndex**: `expand_range`'s loop and the `indices` that
  `_.intersection` and `reverse` make of the formatted boundaries.
- **timer**: the list of pending handles.
- **dashboard**:
  - `route`'s choice of source;
  - `refresh`'s choice of active indices;
  - `dash_load`'s effect on the timers, `indices`, `current` and the two
    registries.

JavaScript values are modelled by `Values`:
- records are maps from field name to value, and a missing key is
  `undefined`;
- `_.defaults` and `_.extend` are map unions;
- truthiness is `Values.Truthy`.

Objects whose fields the code updates in place are classes: `QuerySrv`,
`FilterSrv`, `Timer`, `Dashboard` and `Bus`. Their methods are proved
against the table transitions in `Registry` (`Added`, `Merged`, `Released`,
`ReleasedAll`). Self-contained decisions are functions with contracts. The
loops of the source are `while`/`for` loops with invariants:
- `expand_range`;
- the name building in `indices`;
- `cancel_all`;
- `removeByType`;
- `getBoolFilter`.

JavaScript enumerates an object's integer keys in ascending order.
`Seqs.AscendingKeys` models that order, which decides what `_.where` and
`_.findWhere` see first.

Collaborators are parameters:
- the index catalog the cluster reports: `Option<seq<string>>`, with None
  for a failed request;
- moving a time forward by one interval unit: `KbnIndex.Step`, any strictly
  increasing function;
- formatting a pattern at a time: `KbnIndex.Format`, uninterpreted;
- the browser's local storage and the parsed stored dashboard;
- route parameters.

Times are integers.

An unknown interval is not a failure in the code. `expand_range` returns
`false`, and `_.each(false, ...)` visits nothing, so `indices` resolves to no
names and `refresh` falls back to the default index. The model follows the
code: `KbnIndex.Candidates` is empty and `Dashboard.RefreshOutcome` gives
`[index.default]`. Likewise, `dash_load` keeps a shallow `_.clone` of the
document rather than a deep copy; the model stores the document value.

## Model

| member | source | states |
|---|---|---|
| Values.Truthy | js/services.js:371 | JavaScript truthiness: `undefined`, `false`, `0` and `''` are falsy, and only defined values are truthy |
| Values.Defaults | js/services.js:252 | `_.defaults`: the keys of both; the object's own fields kept, the missing ones taken from the defaults |
| Values.Extend | js/services.js:237 | `_.extend`: the keys of both; the source's fields overwrite, the object's other fields are kept |
| EventBus.AsSeq | js/services.js:51-56 | a scalar `to` or `group` becomes a one-element list; a list stays as it is |
| EventBus.Groups | js/services.js:49 | a scope without a panel is in group `"NONE"`; otherwise in its panel's group(s) |
| EventBus.Addressed | js/services.js:58-65 | a packet is never delivered to its sender; it is always delivered to a listener that `to` names or when `to` holds `"ALL"` |
| EventBus.AddressedIff | js/services.js:59-66 | `register`'s test, as written with `_.intersection`/`_.indexOf`, holds iff the sender is not the listener and (a group is in `to`, or the listener's id is in `to`, or `"ALL"` is in its groups, or `"ALL"` is in `to`) |
| EventBus.Receive | js/services.js:43-69 | the handler runs exactly for addressed packets, with the packet's data and `{time, to, from, type}` metadata, `to` wrapped into a list |
| EventBus.Bus.constructor | js/services.js:10 | no channel has been registered |
| EventBus.Bus.Register | js/services.js:41 | `_types` gains the channel once (union): unchanged if present, appended otherwise; no duplicates arise |
| EventBus.Bus.Broadcast | js/services.js:12-34 | one notification on the channel carrying `{from, to, data}` with `data` defaulting to `from`; preceded, exactly when a debug listener registered, by the whole packet `{time, type, from, to, data}` on `$kibana_debug`, with the same data |
| EventBus.BroadcastReceived | js/services.js:12-69 | a listener receives a broadcast iff it is not the sender and the addressing rule holds; it gets the sender as data when none was given, and no time or type |
| Seqs.Without | js/services.js:184 | `_.without`: every occurrence of the value is dropped and every other element kept with its multiplicity; a list without the value is returned as it is; duplicate-freedom is kept |
| Seqs.WithoutConcat | js/services.js:184 | `_.without` keeps the order of what remains: it distributes over concatenation |
| Seqs.IndexOf | js/services.js:62-64 | `_.indexOf`: -1 iff the value is absent, otherwise the position of its first occurrence |
| Seqs.Reverse | js/services.js:100 | `reverse`: same length, position `i` holds the element from position `n-1-i` |
| Seqs.Max | js/services.js:445 | `_.max` of a non-empty list of numbers is an element of it and no element exceeds it |
| Seqs.Min | js/services.js:446 | `_.min` of a non-empty list of numbers is an element of it and no element is below it |
| Seqs.Intersection | js/services.js:99 | `_.intersection`: exactly the elements in both, each once |
| Seqs.IntersectionOrder | js/services.js:99 | `_.intersection` lists its elements in the order of their first occurrence in the first list |
| Seqs.SortAsc | js/services.js:265-267 | the numeric sort is a sorted permutation, strictly ascending when there are no duplicates |
| Seqs.AscendingKeys | js/services.js:289 | object keys are enumerated once each, in ascending order |
| Registry.Valid | js/services.js:292-298 | the invariant under which `nextId` hands out a fresh id; it implies that no queued id is live |
| Registry.Stored | js/services.js:253-254 | `list[id] = rec; ids.push(id)`: the record is stored under the id, the id is appended, the queue is untouched |
| Registry.Added | js/services.js:243-255 | an id-less `set` stores the record under the minted id and appends that id; the minted id is the queue head, consumed, or else `ids.length` |
| Registry.Released | js/services.js:259-272 | `remove` of an absent id changes nothing; of a present id, exactly that record is deleted, the others kept, the id dropped from `ids` and added once to the queue |
| Registry.ReleasedAll | js/services.js:423-429 | removing a list of ids in turn never adds or changes a record |
| Registry.NextId | js/services.js:292-298 | `nextId`: the head of the queue, else `ids.length` |
| Registry.NextIdFresh | js/services.js:292-298 | under the invariant, a minted id is never live, and every smaller id is live |
| Registry.Minted | js/services.js:293-295 | `nextId` shifts the queue and leaves `list` and `ids` alone |
| Registry.Merged | js/services.js:236-238 | `_.extend(list[id], fields)`: only that record changes, its fields overwritten by the argument's |
| Registry.Requeued | js/services.js:264-267 | `unshift` then `sort`: the queue gains the id and stays sorted |
| Registry.RequeuedAscending | js/services.js:264-267 | requeuing a non-queued id into an ascending queue keeps it strictly ascending, one longer |
| Registry.AddedValid | js/services.js:244-256 | an id-less `set` keeps the allocate/recycle invariant |
| Registry.ReleasedValid | js/services.js:259-272 | `remove` keeps the allocate/recycle invariant |
| Registry.ReleasedReused | js/services.js:259-298 | after a `remove`, the next id-less `set` gets the removed id, unless a smaller one was already queued |
| Registry.ReleasedAllValid | js/services.js:423-429 | removing a list of ids keeps the invariant |
| Registry.ReleasedAllList | js/services.js:423-429 | removing a list of ids deletes exactly those records and leaves every other record as it was |
| Registry.RecycleExample | js/services.js:458-478 | removing 3, 1, 2, then adding three records hands out 1, 2, 3 |
| QueryService.ColorAt | js/services.js:300-302 | a palette colour, `colors[id]` for ids below 56 |
| QueryService.ColorPeriodic | js/services.js:300-302 | ids that differ by 56 get the same colour, so together with `ColorAt` every id gets `colors[id mod 56]` |
| QueryService.QueryDefaults | js/services.js:244-251 | the default query record: query `'*'`, alias, colour `colors[id mod 56]`, pin false, the id and type `'lucene'`, and no other field |
| QueryService.NewQuery | js/services.js:252 | `_.defaults(query, _query)`: the caller's fields are kept, and the defaults' fields are added |
| QueryService.NewQueryFields | js/services.js:243-251 | an id-less `set(q)` keeps every field of `q` and fills only missing ones: query `'*'`, alias `''`, colour `colors[id mod 56]`, pin false, the id, type `'lucene'` |
| QueryService.ToEjsObj | js/services.js:278-286 | a lucene query or one with a query text becomes a query-string query over `q.query`, or `'*'` when that is falsy; any other gives false |
| QueryService.FirstWithQuery | js/services.js:289 | the first position whose record has exactly that query, or -1 iff there is none |
| QueryService.FindQuery | js/services.js:288-290 | a found record is one of the registry's and has exactly that query text |
| QueryService.FindQueryMeaning | js/services.js:288-290 | `findWhere` returns none iff no query has exactly that text; otherwise the record with the smallest such id |
| QueryService.Seeded | js/services.js:223-231 | after `init` the slice holds at least one query; a slice that holds some is left as it is |
| QueryService.SeededFirst | js/services.js:223-231 | `init` on a consistent empty slice adds exactly one query, the default one, under id 0 with the first colour; a non-empty slice is left as it is |
| QueryService.QuerySrv.constructor | js/services.js:198-203 | the registry starts empty |
| QueryService.QuerySrv.Init | js/services.js:223-231 | binds to the slice and seeds the default query when it holds none; afterwards `ids` is non-empty |
| QueryService.QuerySrv.NextId | js/services.js:292-298 | returns `Registry.NextId` and shifts the queue |
| QueryService.QuerySrv.Set | js/services.js:234-257 | a known id: merge and return it; an unknown id: false, nothing changes; no id: store the defaulted record under the minted id and return that id; the invariant is kept |
| QueryService.QuerySrv.Remove | js/services.js:259-272 | true iff the id was present; the table becomes `Released`; the invariant is kept |
| FilterService.FilterArg | js/services.js:340-341 | the argument is made active and given mandate `'must'` when it has none; its other fields are kept |
| FilterService.NewFilter | js/services.js:340-358 | an id-less `set(f)` stores `f` made active, every other field of `f` kept, with mandate `'must'`, alias `''` and the minted id filled in when `f` lacks them |
| FilterService.Matches | js/services.js:432 | a matching filter has the type; with `inactive`, having the type is enough |
| FilterService.Where | js/services.js:433 | `_.where` keeps, in order, exactly the keys whose records match |
| FilterService.IdsByType | js/services.js:431-434 | exactly the ids of filters of the type (that are also active unless `inactive`), ascending |
| FilterService.GetByType | js/services.js:419-421 | `_.pick(list, idsByType(...))`: the sub-map of exactly the matching filters |
| FilterService.Pluck | js/services.js:445 | `_.pluck` of a numeric bound: field by field, in order |
| FilterService.PluckExtremes | js/services.js:445-452 | `_.max`/`_.min` of a plucked bound are attained by some filter and bound all of them |
| FilterService.TimeRange | js/services.js:437-456 | false iff there is no active time filter or the mode is unknown; `"min"` is the latest start and earliest end over them, `"max"` the earliest start and latest end; each bound comes from some filter |
| FilterService.ToEjsObj | js/services.js:392-417 | false iff inactive or of an unknown type; time and range give a range filter over the record's field and bounds; querystring gives a cached query filter; a terms, exists or missing filter results exactly for an active filter of that type, over the record's field |
| FilterService.MandateOf | js/services.js:372-382 | a filter is a mustNot clause iff its mandate is `'mustNot'`, an either clause iff it is `'either'`, and a must clause otherwise |
| FilterService.BoolFilterOf | js/services.js:366-386 | `getBoolFilter`'s shape: a bool filter whose must list starts with match-all and ends with the either bool (match-all, the either clauses as should), with no should clauses, and whose mustNot clauses are exactly the translations of the active mustNot filters |
| FilterService.Part | js/services.js:369-382 | the clauses of one mandate are exactly the translations of the active filters with that mandate |
| FilterService.PartForall | js/services.js:369-382 | a property holds of every clause of a mandate iff it holds of every active filter with it |
| FilterService.PartExists | js/services.js:369-382 | some clause has a property iff some active filter of the mandate has it; there are none iff no active filter has the mandate |
| FilterService.BoolFilterMeaning | js/services.js:366-386 | a document passes `getBoolFilter` iff it passes every active must filter, fails every active mustNot filter, and passes some active either filter when there is one |
| FilterService.RemainingAfter | js/services.js:423-434 | after `removeByType`, no active filter of the type remains, and every other filter, inactive ones of the type included, is untouched |
| FilterService.RemovedByType | js/services.js:423-429 | removing a type's ids one by one leaves exactly `RemainingAfter` |
| FilterService.FilterSrv.constructor | js/services.js:309-314 | the registry starts empty |
| FilterService.FilterSrv.Init | js/services.js:324-335 | binds to the slice and adds nothing |
| FilterService.FilterSrv.NextId | js/services.js:472-478 | returns `Registry.NextId` and shifts the queue |
| FilterService.FilterSrv.Set | js/services.js:339-364 | a known id: merge the activated, mandate-defaulted argument and return the id (the stored filter becomes active, and its mandate `'must'` unless one is given); an unknown id, or no id and no type: false, nothing changes; otherwise store it with alias `''` and its id under the minted id; the invariant is kept |
| FilterService.FilterSrv.Remove | js/services.js:458-470 | true iff present; the table becomes `Released`; the invariant is kept |
| FilterService.FilterSrv.RemoveByType | js/services.js:423-429 | returns `idsByType(type)`, the active filters of the type, and removes exactly those, one by one; the invariant is kept |
| FilterService.FilterSrv.GetBoolFilter | js/services.js:366-386 | builds exactly `BoolFilterOf`: match-all and the must clauses, then the either bool (seeded with match-all); mustNot clauses alongside |
| KbnIndex.ParseInterval | js/services.js:140 | an interval is accepted iff it is hour, day, week, month or year |
| KbnIndex.Steps | js/services.js:144-163 | the loop's times: empty iff `start >= end`; otherwise start first, all before `end`, strictly ascending, and one more step past the last reaches `end` |
| KbnIndex.StepsChain | js/services.js:144-163 | each visited time is one interval step after the one before it |
| KbnIndex.ExpandRange | js/services.js:139-169 | false iff the interval is unknown; otherwise the visited times then `end`, so the last element is `end`, every earlier one is before it, and the first is `start` when `start < end` |
| KbnIndex.Candidates | js/services.js:93-96 | one name per boundary, the pattern formatted at it; none for an unknown interval |
| KbnIndex.Resolved | js/services.js:98-102 | no more names than candidates, each of them in the catalog |
| KbnIndex.ResolvedMeaning | js/services.js:98-102 | the resolved names are exactly the candidates in the catalog, each once, latest candidate first |
| KbnIndex.ReversedOrder | js/services.js:100 | reversing a list kept in first-mention order puts the latest first |
| KbnIndex.ResolveExample | js/services.js:92-103 | January 1st to 3rd by day, against a catalog of the 1st, 2nd and 4th, resolves to the 2nd then the 1st |
| KbnIndex.Indices | js/services.js:92-103 | resolves (Some) iff the catalog request succeeds, and then to the reversed intersection of the candidates with the catalog |
| Timer.Timer.constructor | js/services.js:176 | no timer is pending and none has been cancelled |
| Timer.Timer.Register | js/services.js:178-181 | the handle is appended and returned |
| Timer.Timer.Cancel | js/services.js:183-186 | every occurrence of the handle is dropped, the others kept in order, and it is cancelled |
| Timer.Timer.CancelAll | js/services.js:188-193 | every pending handle is cancelled, in order, and none remain |
| Dashboard.Route | js/services.js:517-552 | a URL type and id choose the source: elasticsearch→`dashboard`, temp→`temp`, file→that file, anything else `default.json`; without them, a non-empty saved dashboard where storage is supported, else `default.json` |
| Dashboard.WithDefaults | js/services.js:487-497 | `_.defaults(dashboard, _dash)`: each missing top-level field from `_dash` (index `none`/`_all`/`_all`) |
| Dashboard.SliceOf | js/services.js:198-203 | a missing slice is the empty one |
| Dashboard.RefreshOutcome | js/services.js:556-580 | the active indices are `[index.default]` when the interval is `'none'` or no time filter is active; otherwise nothing happens iff the catalog request fails; the indices are never empty, and unless they are the default they are distinct catalog names |
| Dashboard.RefreshUsesNarrowestWindow | js/services.js:558-569 | with time-based indices and an active time filter, the indices resolved are those of the narrowest window, falling back to the default when none exist |
| Dashboard.Dashboard.constructor | js/services.js:507-508 | no current dashboard, no indices, empty registries and timer list |
| Dashboard.Dashboard.Refresh | js/services.js:556-580 | sets `indices` to `RefreshOutcome` and broadcasts `'refresh'` iff it resolves; otherwise `indices` is unchanged |
| Dashboard.Dashboard.DashLoad | js/services.js:582-606 | cancels all timers; `indices` becomes the default when the interval is `'none'`; the document becomes current; the query registry is `init`ed (seeded) and the filter registry bound from the document's slices; it refreshes iff time-based indices are wanted and no time filter is active; a load returns true |
| Dashboard.Dashboard.OnRouteChange | js/services.js:510-552 | clears the current dashboard and indices and picks the source by `route`; a saved dashboard, given `_dash` defaults, is loaded at once with every effect of `dash_load` (timers cancelled, query registry seeded, filter registry bound, indices set); for any other source no service changes |

## Left out

- HTTP and remote stores are not modelled: `all_indices`, `file_load`, the
  `elasticsearch_*` operations, `save_gist` and `gist_list`. The index catalog
  is a parameter, and for the other sources the route only names them.
- Browser state is not modelled: `set_default`, `purge_default`, `to_file` and
  `share_link`. Local storage enters `route` only as a "supported" flag and
  the saved string. `JSON.parse` is a parameter: the parsed partial document.
- Not modelled: `is_gist` and `gist_id`, because they are regular-expression
  matching.
- Not modelled: the `fields` listener, a one-line framework event handler.
- Angular's delivery of `$broadcast` to `$on` handlers, `$injector` and
  `$timeout.cancel` are framework calls. `Receive` is the handler's filter.
  `Broadcast` gives the notifications. `Timer.cancelled` records the cancel calls.
  The `'refresh'` broadcast is the `refreshed` result.
- `fake_utc` and moment's calendar arithmetic and formatting belong to the
  host date library. Times are integers, the step is any function that moves
  every time strictly forward, and the format is uninterpreted.
- `querySrv.getEjsObj` and `filterSrv.getEjsObj` are one-line lookups
  (`toEjsObj(list[id])`). They are inlined where `GetBoolFilter` uses them.
- FilterService.IdsByType returns the keys of the matching records, but the
  source plucks each record's `id` field. The two differ when a caller
  supplies an `id` field. An id-less `set` fills `id` with `_.defaults`,
  which keeps the caller's (js/services.js:354-358). `set(f, id)` copies any
  `id` of `f` over the stored one with `_.extend` (js/services.js:344). For
  example, `set({type:'time', id:7})` on an empty registry stores the record
  under key 0 with field `id` 7. The source's `removeByType('time')` then
  returns `[7]`, its `remove(7)` fails, and record 0 stays. The model returns
  `[0]` and removes record 0. `getByType`, `removeByType` and `init` use these
  ids, so they act on the field in the source and on the key in the model.
- QueryService.QuerySrv.Set and FilterService.FilterSrv.Set work on values.
  In the source an id-less `set` stores the caller's own object, and both
  services' `set` mutate their argument (js/services.js:252-253, 340-341,
  358-359). The model stores a copy and leaves the argument alone.
- FilterService.FilterSrv.Init does not convert time bounds with
  `new Date(...)`. The model keeps times numeric.
- FilterService.TimeRange requires every active time filter to have numeric
  bounds. The model does not capture `_.max`/`_.min` over non-numeric values.
- Aliasing between the registries and `dashboard.current.services` is not
  modelled. The services in JavaScript edit the document's slices in place.
  The model keeps the registries' state in the service objects, and the
  current document holds the slices it was loaded with.
- Dashboard.Dashboard.DashLoad requires both slices to be present once the
  services exist. In the source, `dash_load` makes a shallow clone of the
  document (js/services.js:591), and `_.defaults` gives a document with no
  `services` the shared `_dash.services` object (js/services.js:491, 545, 664).
  That object holds slices only when the first dashboard loaded also lacked
  `services`, for then the first injection of each service filled it
  (js/services.js:198, 309). A later such load then reuses those slices.
  Usually the first dashboard has its own `services`, as every dashboard
  stored by `set_default` does (js/services.js:629-631). Then
  `_dash.services` stays `{}`, and such a later load throws in
  `querySrv.init` (js/services.js:225). `elasticsearch_load` applies no `_.defaults`
  (js/services.js:681), so a document from it without `services` throws at
  js/services.js:224. The model represents neither the shared object nor the
  throw.
- Dashboard.Dashboard.OnRouteChange has the same requires for a stored
  dashboard, for the reasons given in the line above.
- EventBus.Listener does not model a panel whose `group` is `undefined`.
- Dashboard.Dashboard.Refresh treats the catalog request as finished when
  it is called. In the source the `.then` at js/services.js:562-569 may run
  after a later `dash_load` or route change and overwrite `indices`.
- Not modelled: these edge behaviours, in which the source throws or picks
  fields one by one.
  - `JSON.parse` throwing on a corrupt stored dashboard (js/services.js:544).
  - Per-field defaulting of a partial slice (js/services.js:199-203,
    310-314). `SliceOf` takes a slice whole or uses the empty one.
  - An id that `ids` names but `list` lacks. The source throws at
    js/services.js:371, and FilterService.FilterSrv.GetBoolFilter requires
    every selected id to be in `list`.
