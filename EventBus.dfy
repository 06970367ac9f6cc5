/** The `eventBus` service: addressed broadcasts between panels sharing one
    notification medium. `Broadcast` builds the notifications handed to the
    transport; `Receive` is the filter that `register` installs in front of a
    listener's handler. The transport's delivery itself is not modelled. */
module EventBus {
  import opened Values
  import opened Seqs

  /** A listener id (`scope.$id`), a group name or the wildcard `"ALL"`;
      they are compared with `===`. */
  datatype Addr = Id(n: int) | Name(s: string)

  const All: Addr := Name("ALL")
  const NoGroup: Addr := Name("NONE")

  /** `to` and `panel.group` may each be a single address or an array of them. */
  datatype Target = One(a: Addr) | Many(s: seq<Addr>)

  /** `if(!_.isArray(x)) x = [x]` */
  function AsSeq(t: Target): (r: seq<Addr>)
    ensures t.One? ==> r == [t.a]
    ensures t.Many? ==> r == t.s
  {
    match t
    case One(a) => [a]
    case Many(s) => s
  }

  datatype Panel = Panel(group: Target)

  /** A registered scope: its `$id` and, when it renders a panel, that panel. */
  datatype Listener = Listener(id: Addr, panel: Option<Panel>)

  /** The payload of a broadcast: the caller's data, or the sender id when the
      caller gave none. */
  datatype Payload = Sender(a: Addr) | Data(token: int)

  /** What travels through the transport. The debug copy carries the whole
      packet; the normal notification only `{from, to, data}`, so a listener of
      it sees `time` and `type` as `undefined` (None). */
  datatype Message = Message(time: Option<int>, kind: Option<string>, from: Addr, to: Target, data: Payload)

  /** One `$rootScope.$broadcast(channel, message)`. */
  datatype Notification = Notification(channel: string, message: Message)

  const DebugChannel := "$kibana_debug"

  /** The groups a listener belongs to: its panel's group, else `["NONE"]`. */
  function Groups(l: Listener): (g: seq<Addr>)
    ensures l.panel.None? ==> g == [NoGroup]
    ensures l.panel.Some? ==> g == AsSeq(l.panel.value.group)
  {
    match l.panel
    case None => [NoGroup]
    case Some(p) => AsSeq(p.group)
  }

  /** The addressing test of `register`, written with the underscore
      operations it uses. */
  predicate Addressed(l: Listener, m: Message)
    ensures Addressed(l, m) ==> m.from != l.id
    ensures m.from != l.id && (l.id in AsSeq(m.to) || All in AsSeq(m.to)) ==> Addressed(l, m)
  {
    var to := AsSeq(m.to);
    var group := Groups(l);
    (|Intersection(to, group)| > 0
      || IndexOf(to, l.id) > -1
      || IndexOf(group, All) > -1
      || IndexOf(to, All) > -1)
    && m.from != l.id
  }

  /** Delivery as a property of sets of addresses: never to the sender, and
      otherwise whenever a group is shared, the listener is named or "ALL"
      appears on either side. */
  lemma AddressedIff(l: Listener, m: Message)
    ensures Addressed(l, m) <==>
      m.from != l.id &&
      ((exists a :: a in AsSeq(m.to) && a in Groups(l))
       || l.id in AsSeq(m.to)
       || All in Groups(l)
       || All in AsSeq(m.to))
  {
    var to, group := AsSeq(m.to), Groups(l);
    var common := Intersection(to, group);
    if exists a :: a in to && a in group {
      var a :| a in to && a in group;
      assert a in common;
    }
    if |common| > 0 {
      assert common[0] in to && common[0] in group;
    }
  }

  /** The metadata handed to the handler next to the data. */
  datatype Meta = Meta(time: Option<int>, to: seq<Addr>, from: Addr, kind: Option<string>)

  datatype Delivery = Delivery(data: Payload, meta: Meta)

  /** The listener installed by `register`: the handler runs with the packet's
      data and its metadata exactly when the packet is addressed to the scope. */
  function Receive(l: Listener, m: Message): (r: Option<Delivery>)
    ensures r.Some? <==> Addressed(l, m)
    ensures r.Some? ==>
      && r.value.data == m.data && r.value.meta.from == m.from
      && r.value.meta.to == AsSeq(m.to) && r.value.meta.time == m.time && r.value.meta.kind == m.kind
  {
    if Addressed(l, m) then Some(Delivery(m.data, Meta(m.time, AsSeq(m.to), m.from, m.kind)))
    else None
  }

  /** The bus keeps the channel names that have been registered (`_types`). */
  class Bus {
    var types: seq<string>

    constructor ()
      ensures types == []
    {
      types := [];
    }

    /** `register(scope, type, fn)`: `_types = _.union(_types, [type])`; the
        handler itself is installed on the transport (not modelled). */
    method Register(kind: string)
      modifies this
      ensures types == if kind in old(types) then old(types) else old(types) + [kind]
      ensures NoDup(old(types)) ==> NoDup(types)
    {
      if kind !in types {
        types := types + [kind];
      }
    }

    /** `broadcast(from, to, type, data)` at time `now`: the debug copy first,
        when a debug listener was ever registered, then the normal notification. */
    function Broadcast(from: Addr, to: Target, kind: string, data: Option<Payload>, now: int): (r: seq<Notification>)
      reads this
      ensures |r| == if DebugChannel in types then 2 else 1
      ensures r[|r| - 1].channel == kind
      ensures r[|r| - 1].message == Message(None, None, from, to, if data.Some? then data.value else Sender(from))
      ensures |r| == 2 ==>
        && r[0].channel == DebugChannel
        && r[0].message == Message(Some(now), Some(kind), from, to, r[1].message.data)
    {
      var payload := if data.Some? then data.value else Sender(from);
      var normal := Notification(kind, Message(None, None, from, to, payload));
      if DebugChannel in types then
        [Notification(DebugChannel, Message(Some(now), Some(kind), from, to, payload)), normal]
      else
        [normal]
    }
  }

  /** What a registered listener gets from a broadcast it receives: the sender
      as data when no data was given, and no time or type. */
  lemma BroadcastReceived(b: Bus, l: Listener, from: Addr, to: Target, kind: string, data: Option<Payload>, now: int)
    ensures var r := b.Broadcast(from, to, kind, data, now);
      var d := Receive(l, r[|r| - 1].message);
      (d.Some? <==> from != l.id && (l.id in AsSeq(to) || All in AsSeq(to) || All in Groups(l)
                                     || exists a :: a in AsSeq(to) && a in Groups(l)))
      && (d.Some? ==> d.value.data == (if data.Some? then data.value else Sender(from))
                      && d.value.meta.time.None? && d.value.meta.kind.None?)
  {
    var r := b.Broadcast(from, to, kind, data, now);
    AddressedIff(l, r[|r| - 1].message);
  }
}
