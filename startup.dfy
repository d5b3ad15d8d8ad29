/** Start-up in `main`: discover the two globals in one round-trip, refuse to
    go on unless both are bound, then create the dummy surface in a second
    round-trip and build the `App`. */
module Startup {
  import opened Wrappers
  import opened Wayland
  import opened Registry
  import opened Inhibitor

  /** The two `expect`s of `main`, in their order: the idle-inhibit manager
      is checked first, then the compositor. */
  datatype StartupError = NoIdleInhibitManager | NoCompositor

  /** The manager and the compositor, or the first `expect` that fails. */
  function Require(b: Bindings): (r: Result<(Proxy, Proxy), StartupError>)
    ensures r.Ok? <==> b.idleInhibitManager.Some? && b.compositor.Some?
    ensures r.Ok? ==> r.value == (b.idleInhibitManager.value, b.compositor.value)
    ensures r.Err? ==> (r.error == NoIdleInhibitManager <==> b.idleInhibitManager.None?)
  {
    if b.idleInhibitManager.None? then Err(NoIdleInhibitManager)
    else if b.compositor.None? then Err(NoCompositor)
    else Ok((b.idleInhibitManager.value, b.compositor.value))
  }

  /** Start-up gets past discovery exactly when the compositor advertises
      both a `wl_compositor` and a `zwp_idle_inhibit_manager_v1` global. */
  lemma StartupSucceedsIff(es: seq<Registry.Event>)
    ensures Require(Discover(NoBindings, es)).Ok? <==>
      (exists k :: 0 <= k < |es| && SelectsField(es[k], Compositor)) &&
      (exists k :: 0 <= k < |es| && SelectsField(es[k], IdleInhibitManager))
  {
    DiscoverBoundIff(NoBindings, es, Compositor);
    DiscoverBoundIff(NoBindings, es, IdleInhibitManager);
  }

  /** Without a manager global start-up fails on the manager, whatever else
      is advertised. */
  lemma MissingManagerFails(es: seq<Registry.Event>)
    requires forall k :: 0 <= k < |es| ==> !SelectsField(es[k], IdleInhibitManager)
    ensures Require(Discover(NoBindings, es)) == Err(NoIdleInhibitManager)
  {
    DiscoverUnmatched(NoBindings, es, IdleInhibitManager);
  }

  /** `main` up to the creation of the `App`, with `es` the registry events
      the compositor sends in the discovery round-trip. On failure no
      surface and no inhibitor request is ever sent; on success the app does
      not inhibit, its manager is the last manager global advertised and its
      surface was created on the compositor that was bound. */
  method Start(es: seq<Registry.Event>) returns (connection: Connection, r: Result<App, StartupError>)
    ensures fresh(connection)
    ensures r.Err? <==> Require(Discover(NoBindings, es)).Err?
    ensures r.Err? ==> r.error == Require(Discover(NoBindings, es)).error
    ensures r.Err? ==> forall k :: 0 <= k < |connection.log| ==> !connection.log[k].CreateSurface?
    ensures r.Err? ==> connection.log == [GetRegistry] + Binds(es) + [Roundtrip(0)]
    ensures r.Ok? ==>
      fresh(r.value) && r.value.Valid() && !r.value.IsInhibited() &&
      r.value.connection == connection &&
      r.value.manager == Require(Discover(NoBindings, es)).value.0 &&
      connection.log == [GetRegistry] + Binds(es) + [Roundtrip(0)] +
        [CreateSurface(Require(Discover(NoBindings, es)).value.1, r.value.dummySurface), Roundtrip(1)]
  {
    connection := new Connection();
    var bindings := Discovery(connection, es);
    SetupLog(es, []);
    var res := Require(bindings);
    if res.Err? {
      r := Err(res.error);
      return;
    }
    var (manager, compositor) := res.value;
    var q2 := connection.NewEventQueue();
    var surface := connection.NewObject();
    connection.Send(CreateSurface(compositor, surface));
    connection.Roundtrip(q2);
    SetupLog(es, [CreateSurface(compositor, surface), Roundtrip(q2)]);
    assert connection.log ==
      [GetRegistry] + Binds(es) + [Roundtrip(0)] + [CreateSurface(compositor, surface), Roundtrip(q2)];
    var app := new App(surface, manager, connection);
    r := Ok(app);
  }

  /** The block of `main` that builds `proxies`: a fresh queue, the
      registry request, and one round-trip dispatching the registry events
      into a struct with both fields unbound. */
  method Discovery(connection: Connection, es: seq<Registry.Event>) returns (b: Bindings)
    modifies connection
    ensures b == Discover(NoBindings, es)
    ensures connection.queues == old(connection.queues) + 1
    ensures connection.nextId == old(connection.nextId)
    ensures connection.log ==
      old(connection.log) + [GetRegistry] + Binds(es) + [Roundtrip(old(connection.queues))]
  {
    var q := connection.NewEventQueue();
    connection.Send(GetRegistry);
    var proxies := new Proxies();
    proxies.DispatchAll(es, connection, q);
    b := proxies.Value();
  }

  /** The discovery log followed by a `tail` of surface requests and
      round-trips leaves no inhibitor alive and is bracketed; without a
      tail it holds no surface request either. */
  lemma SetupLog(es: seq<Registry.Event>, tail: seq<Request>)
    requires forall i :: 0 <= i < |tail| ==> tail[i].CreateSurface? || tail[i].Roundtrip?
    ensures var log := [GetRegistry] + Binds(es) + [Roundtrip(0)] + tail;
      LiveInhibitors(log) == {} && Bracketed(log)
    ensures tail == [] ==> forall k :: 0 <= k < |[GetRegistry] + Binds(es) + [Roundtrip(0)]| ==>
      !([GetRegistry] + Binds(es) + [Roundtrip(0)])[k].CreateSurface?
  {
    var log := [GetRegistry] + Binds(es) + [Roundtrip(0)] + tail;
    forall k | 0 <= k < |log|
      ensures log[k].GetRegistry? || log[k].Bind? || log[k].Roundtrip? || log[k].CreateSurface?
      ensures k < |log| - |tail| ==> !log[k].CreateSurface?
    {
      if 1 <= k < 1 + |Binds(es)| {
        assert log[k] == Binds(es)[k - 1];
      } else if k >= 2 + |Binds(es)| {
        assert log[k] == tail[k - 2 - |Binds(es)|];
      }
    }
    NoInhibitorRequests(log);
    if tail == [] {
      assert log == [GetRegistry] + Binds(es) + [Roundtrip(0)];
    }
  }
}
