/** The compositor connection, reduced to what the program asks of it: it
    opens event queues, hands out new objects, and records every request it
    sends, in order. Round-trips always succeed here. In the program a
    failed round-trip in `main` ends the process, and a failed round-trip in
    `set_inhibited` ends the debounce thread; the model has no state after
    either. */
module Wayland {

  /** A client-side handle. A bound global is known by the registry name it
      was bound from and the version it was bound at; every other object by
      the id the connection gave it. */
  datatype Proxy = Bound(name: nat, version: nat) | Object(id: nat)

  /** The requests the program sends, and the completion of a round-trip.
      Requests issued while a round-trip dispatches events come before its
      `Roundtrip` entry. */
  datatype Request =
    | GetRegistry
    | Bind(name: nat, interface: string, version: nat)
    | CreateSurface(compositor: Proxy, surface: Proxy)
    | CreateInhibitor(manager: Proxy, surface: Proxy, inhibitor: Proxy)
    | Destroy(proxy: Proxy)
    | Roundtrip(queue: nat)

  /** What one request does to the set of live inhibitors. */
  function Apply(live: set<Proxy>, r: Request): set<Proxy>
  {
    if r.CreateInhibitor? then live + {r.inhibitor}
    else if r.Destroy? then live - {r.proxy}
    else live
  }

  /** The inhibitors a request log leaves alive: created and not yet
      destroyed. */
  function LiveInhibitors(log: seq<Request>): set<Proxy>
  {
    if log == [] then {}
    else Apply(LiveInhibitors(log[..|log| - 1]), log[|log| - 1])
  }

  /** The log is well bracketed: an inhibitor is created only while none is
      alive, and only a live inhibitor is destroyed. */
  ghost predicate Bracketed(log: seq<Request>)
  {
    forall k :: 0 <= k < |log| ==>
      (log[k].CreateInhibitor? ==> LiveInhibitors(log[..k]) == {}) &&
      (log[k].Destroy? ==> log[k].proxy in LiveInhibitors(log[..k]))
  }

  /** Extending a log by one request updates the live set by that request
      alone. */
  lemma LiveSnoc(log: seq<Request>, r: Request)
    ensures LiveInhibitors(log + [r]) == Apply(LiveInhibitors(log), r)
  {
    assert (log + [r])[..|log|] == log;
  }

  /** A log without inhibitor requests leaves none alive and is bracketed. */
  lemma {:induction false} NoInhibitorRequests(log: seq<Request>)
    requires forall k :: 0 <= k < |log| ==> !log[k].CreateInhibitor? && !log[k].Destroy?
    ensures LiveInhibitors(log) == {} && Bracketed(log)
    decreases |log|
  {
    if log != [] {
      var init := log[..|log| - 1];
      NoInhibitorRequests(init);
      forall k | 0 <= k < |log| ensures LiveInhibitors(log[..k]) == {} {
        assert log[..k] == init[..k];
        NoInhibitorRequests(init[..k]);
      }
    }
  }

  /** Creating an inhibitor when none is alive and completing a round-trip
      leaves exactly that inhibitor alive and keeps the log bracketed. */
  lemma {:induction false} CreateKeepsBracketed(log: seq<Request>, m: Proxy, s: Proxy, p: Proxy, q: nat)
    requires Bracketed(log) && LiveInhibitors(log) == {}
    ensures LiveInhibitors(log + [CreateInhibitor(m, s, p), Roundtrip(q)]) == {p}
    ensures Bracketed(log + [CreateInhibitor(m, s, p), Roundtrip(q)])
  {
    var l1 := log + [CreateInhibitor(m, s, p)];
    var l2 := l1 + [Roundtrip(q)];
    assert log + [CreateInhibitor(m, s, p), Roundtrip(q)] == l2;
    LiveSnoc(log, CreateInhibitor(m, s, p));
    LiveSnoc(l1, Roundtrip(q));
    forall k | 0 <= k < |l2|
      ensures (l2[k].CreateInhibitor? ==> LiveInhibitors(l2[..k]) == {})
      ensures (l2[k].Destroy? ==> l2[k].proxy in LiveInhibitors(l2[..k]))
    {
      if k < |log| {
        assert l2[..k] == log[..k];
      } else if k == |log| {
        assert l2[..k] == log;
      }
    }
  }

  /** Destroying the one live inhibitor and completing a round-trip leaves
      none alive and keeps the log bracketed. */
  lemma {:induction false} DestroyKeepsBracketed(log: seq<Request>, p: Proxy, q: nat)
    requires Bracketed(log) && LiveInhibitors(log) == {p}
    ensures LiveInhibitors(log + [Destroy(p), Roundtrip(q)]) == {}
    ensures Bracketed(log + [Destroy(p), Roundtrip(q)])
  {
    var l1 := log + [Destroy(p)];
    var l2 := l1 + [Roundtrip(q)];
    assert log + [Destroy(p), Roundtrip(q)] == l2;
    LiveSnoc(log, Destroy(p));
    LiveSnoc(l1, Roundtrip(q));
    forall k | 0 <= k < |l2|
      ensures (l2[k].CreateInhibitor? ==> LiveInhibitors(l2[..k]) == {})
      ensures (l2[k].Destroy? ==> l2[k].proxy in LiveInhibitors(l2[..k]))
    {
      if k < |log| {
        assert l2[..k] == log[..k];
      } else if k == |log| {
        assert l2[..k] == log;
      }
    }
  }

  /** `wayland_client::Connection`: only its request log and its counters. */
  class Connection {
    var log: seq<Request>
    var queues: nat
    var nextId: nat

    constructor ()
      ensures log == [] && queues == 0 && nextId == 0
    {
      log, queues, nextId := [], 0, 0;
    }

    /** `new_event_queue`: a fresh queue, numbered in opening order. */
    method NewEventQueue() returns (q: nat)
      modifies this`queues
      ensures q == old(queues) && queues == old(queues) + 1
    {
      q := queues;
      queues := queues + 1;
    }

    /** The id of the object a create request brings into being. */
    method NewObject() returns (p: Proxy)
      modifies this`nextId
      ensures p == Object(old(nextId)) && nextId == old(nextId) + 1
    {
      p := Object(nextId);
      nextId := nextId + 1;
    }

    /** Queue one request for sending. */
    method Send(r: Request)
      modifies this`log
      ensures log == old(log) + [r]
    {
      log := log + [r];
    }

    /** `queue.roundtrip(..).unwrap()` on queue `q`, assumed to succeed. */
    method Roundtrip(q: nat)
      modifies this`log
      ensures log == old(log) + [Request.Roundtrip(q)]
    {
      log := log + [Request.Roundtrip(q)];
    }
  }
}
