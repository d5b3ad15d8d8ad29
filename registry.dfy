/** The registry binder that the `proxies!` macro expands to for the two
    fields `compositor` and `idle_inhibit_manager`: each advertised global is
    bound into the first table field whose interface it names, at that
    field's table version, and a later global for the same field replaces the
    earlier binding. */
module Registry {
  import opened Wrappers
  import opened Wayland

  datatype Field = Compositor | IdleInhibitManager

  /** One row of the macro's table: field, interface name of its type, and
      the version to bind at. */
  datatype Entry = Entry(field: Field, interface: string, version: nat)

  const Table: seq<Entry> := [
    Entry(Compositor, "wl_compositor", 1),
    Entry(IdleInhibitManager, "zwp_idle_inhibit_manager_v1", 1)
  ]

  /** The registry events the compositor sends during discovery. */
  datatype Event =
    | Global(name: nat, interface: string, version: nat)
    | GlobalRemove(name: nat)

  /** The value of the `Proxies` struct. */
  datatype Bindings = Bindings(compositor: Option<Proxy>, idleInhibitManager: Option<Proxy>)
  {
    function Get(f: Field): Option<Proxy> {
      match f
      case Compositor => compositor
      case IdleInhibitManager => idleInhibitManager
    }

    function Set(f: Field, p: Proxy): (r: Bindings)
      ensures r.Get(f) == Some(p)
      ensures forall g: Field :: g != f ==> r.Get(g) == Get(g)
    {
      match f
      case Compositor => this.(compositor := Some(p))
      case IdleInhibitManager => this.(idleInhibitManager := Some(p))
    }
  }

  const NoBindings := Bindings(None, None)

  /** The index of the first table row whose interface is `interface`. */
  function FirstMatch(table: seq<Entry>, interface: string): (r: Option<nat>)
    ensures r.Some? ==> r.value < |table| && table[r.value].interface == interface
    ensures r.Some? ==> forall j :: 0 <= j < r.value ==> table[j].interface != interface
    ensures r.None? ==> forall j :: 0 <= j < |table| ==> table[j].interface != interface
  {
    if table == [] then None
    else if table[0].interface == interface then Some(0)
    else
      match FirstMatch(table[1..], interface)
      case None => None
      case Some(k) => Some(k + 1)
  }

  /** The table row an event binds into, if any: only `Global` events bind,
      and only when some row names their interface. */
  function Selected(e: Event): Option<nat>
  {
    if e.Global? then FirstMatch(Table, e.interface) else None
  }

  /** `e` binds into field `f`. */
  predicate SelectsField(e: Event, f: Field)
  {
    Selected(e).Some? && Table[Selected(e).value].field == f
  }

  /** The proxy a selecting event binds: its registry name at the row's
      version; the version the compositor advertised plays no part. */
  function BoundProxy(e: Event): Proxy
    requires Selected(e).Some?
  {
    Bound(e.name, Table[Selected(e).value].version)
  }

  /** The two table rows name different fields and different interfaces. */
  lemma TableRows()
    ensures FirstMatch(Table, "wl_compositor") == Some(0)
    ensures FirstMatch(Table, "zwp_idle_inhibit_manager_v1") == Some(1)
    ensures forall i, j :: 0 <= i < j < |Table| ==> Table[i].field != Table[j].field
  {
  }

  /** The `Dispatch::event` handler on the struct's value: a selecting event
      sets its one field, and every other field, and every field for an event
      that selects nothing, is left as it was. */
  function Dispatch(b: Bindings, e: Event): (r: Bindings)
    ensures Selected(e).Some? ==>
      r.Get(Table[Selected(e).value].field) == Some(BoundProxy(e))
    ensures forall f: Field :: !SelectsField(e, f) ==> r.Get(f) == b.Get(f)
  {
    match Selected(e)
    case None => b
    case Some(i) => b.Set(Table[i].field, BoundProxy(e))
  }

  /** The events of one discovery round-trip, dispatched in order. */
  function Discover(b: Bindings, es: seq<Event>): Bindings
    decreases |es|
  {
    if es == [] then b else Discover(Dispatch(b, es[0]), es[1..])
  }

  /** Dispatching one more event after a fold. */
  lemma {:induction false} DiscoverSnoc(b: Bindings, es: seq<Event>, e: Event)
    ensures Discover(b, es + [e]) == Dispatch(Discover(b, es), e)
    decreases |es|
  {
    if es == [] {
      assert [e][1..] == [];
    } else {
      assert (es + [e])[1..] == es[1..] + [e];
      DiscoverSnoc(Dispatch(b, es[0]), es[1..], e);
    }
  }

  /** Events that do not select `f` leave it as it was. */
  lemma {:induction false} DiscoverUnmatched(b: Bindings, es: seq<Event>, f: Field)
    requires forall k :: 0 <= k < |es| ==> !SelectsField(es[k], f)
    ensures Discover(b, es).Get(f) == b.Get(f)
    decreases |es|
  {
    if es != [] {
      assert !SelectsField(es[0], f);
      DiscoverUnmatched(Dispatch(b, es[0]), es[1..], f);
    }
  }

  /** Last wins: `f` ends up bound to the last event that selects it. */
  lemma {:induction false} DiscoverLastWins(b: Bindings, es: seq<Event>, f: Field, k: nat)
    requires k < |es| && SelectsField(es[k], f)
    requires forall j :: k < j < |es| ==> !SelectsField(es[j], f)
    ensures Discover(b, es).Get(f) == Some(BoundProxy(es[k]))
    decreases |es|
  {
    if k == 0 {
      DiscoverUnmatched(Dispatch(b, es[0]), es[1..], f);
    } else {
      DiscoverLastWins(Dispatch(b, es[0]), es[1..], f, k - 1);
    }
  }

  /** `f` is bound after discovery exactly when it was bound before or some
      event selects it. */
  lemma {:induction false} DiscoverBoundIff(b: Bindings, es: seq<Event>, f: Field)
    ensures Discover(b, es).Get(f).Some? <==>
      b.Get(f).Some? || exists k :: 0 <= k < |es| && SelectsField(es[k], f)
    decreases |es|
  {
    if es != [] {
      DiscoverBoundIff(Dispatch(b, es[0]), es[1..], f);
      if exists k :: 0 <= k < |es[1..]| && SelectsField(es[1..][k], f) {
        var k :| 0 <= k < |es[1..]| && SelectsField(es[1..][k], f);
        assert SelectsField(es[k + 1], f);
      }
      if exists k :: 0 <= k < |es| && SelectsField(es[k], f) {
        var k :| 0 <= k < |es| && SelectsField(es[k], f);
        if k > 0 {
          assert SelectsField(es[1..][k - 1], f);
        }
      }
    }
  }

  /** The number of events in `es` that select some table row. */
  function CountSelecting(es: seq<Event>): nat
  {
    if es == [] then 0
    else CountSelecting(es[..|es| - 1]) + (if Selected(es[|es| - 1]).Some? then 1 else 0)
  }

  /** The bind requests dispatching `es` sends: one per selecting event,
      and nothing else. */
  function Binds(es: seq<Event>): (r: seq<Request>)
    ensures |r| == CountSelecting(es)
    ensures forall i :: 0 <= i < |r| ==> r[i].Bind?
    decreases |es|
  {
    if es == [] then []
    else
      var e := es[|es| - 1];
      Binds(es[..|es| - 1]) +
      (if Selected(e).Some? then [Bind(e.name, e.interface, Table[Selected(e).value].version)] else [])
  }

  /** Dispatching one more event adds that event's bind, if any. */
  lemma BindsSnoc(es: seq<Event>, e: Event)
    ensures Binds(es + [e]) == Binds(es) + Binds([e])
  {
    assert (es + [e])[..|es|] == es;
    assert [e][..0] == [];
  }

  /** The binds come in event order: the selecting event at `k` has the
      request right after those of the selecting events before it, and it
      names that event's global and interface at its row's version. */
  lemma {:induction false} BindsInOrder(es: seq<Event>, k: nat)
    requires k < |es| && Selected(es[k]).Some?
    ensures CountSelecting(es[..k]) < |Binds(es)|
    ensures Binds(es)[CountSelecting(es[..k])] ==
      Bind(es[k].name, es[k].interface, Table[Selected(es[k]).value].version)
    decreases |es|
  {
    var init := es[..|es| - 1];
    if k < |init| {
      BindsInOrder(init, k);
      assert es[..k] == init[..k] && es[k] == init[k];
    } else {
      assert es[..k] == init;
    }
  }

  /** The `Proxies` struct, filled in place by the registry handler. */
  class Proxies {
    var compositor: Option<Proxy>
    var idleInhibitManager: Option<Proxy>

    function Value(): Bindings
      reads this
    {
      Bindings(compositor, idleInhibitManager)
    }

    constructor ()
      ensures Value() == NoBindings
    {
      compositor, idleInhibitManager := None, None;
    }

    /** `Dispatch::event` for one registry event: try the table rows in
        order, and at the first whose interface matches bind the global at
        that row's version, store the proxy in the row's field, and stop. */
    method Handle(e: Event, connection: Connection)
      modifies this, connection`log
      ensures Value() == Dispatch(old(Value()), e)
      ensures connection.log == old(connection.log) + Binds([e])
    {
      assert [e][..0] == [];
      if e.Global? {
        for i := 0 to |Table|
          invariant forall j :: 0 <= j < i ==> Table[j].interface != e.interface
        {
          if Table[i].interface == e.interface {
            assert FirstMatch(Table, e.interface) == Some(i);
            connection.Send(Bind(e.name, e.interface, Table[i].version));
            var bound := Bound(e.name, Table[i].version);
            match Table[i].field {
              case Compositor => compositor := Some(bound);
              case IdleInhibitManager => idleInhibitManager := Some(bound);
            }
            return;
          }
        }
      }
    }

    /** A discovery round-trip on queue `q`: every event is dispatched in
        order, then the round-trip completes. */
    method DispatchAll(es: seq<Event>, connection: Connection, q: nat)
      modifies this, connection`log
      ensures Value() == Discover(old(Value()), es)
      ensures connection.log == old(connection.log) + Binds(es) + [Roundtrip(q)]
    {
      for k := 0 to |es|
        invariant Value() == Discover(old(Value()), es[..k])
        invariant connection.log == old(connection.log) + Binds(es[..k])
      {
        assert es[..k + 1] == es[..k] + [es[k]];
        DiscoverSnoc(old(Value()), es[..k], es[k]);
        BindsSnoc(es[..k], es[k]);
        Handle(es[k], connection);
      }
      assert es[..|es|] == es;
      connection.Roundtrip(q);
    }
  }
}
