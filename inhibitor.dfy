/** The inhibitor state machine: `App` holds at most one idle inhibitor on its
    dummy surface, and `SetInhibited` moves between the two states with one
    request and one round-trip, or does nothing. */
module Inhibitor {
  import opened Wrappers
  import opened Wayland

  class App {
    const dummySurface: Proxy
    const manager: Proxy
    var inhibitor: Option<Proxy>
    const connection: Connection

    /** The held inhibitor is the one the log leaves alive, and the log never
        created a second one or destroyed one that was not alive. */
    ghost predicate Valid()
      reads this, connection
    {
      Bracketed(connection.log) &&
      LiveInhibitors(connection.log) == (if inhibitor.Some? then {inhibitor.value} else {})
    }

    /** An app that does not inhibit yet, over a connection whose log
        holds no inhibitor requests. */
    constructor (dummySurface: Proxy, manager: Proxy, connection: Connection)
      requires Bracketed(connection.log) && LiveInhibitors(connection.log) == {}
      ensures this.dummySurface == dummySurface && this.manager == manager
      ensures this.connection == connection && inhibitor == None
      ensures Valid() && !IsInhibited()
    {
      this.dummySurface := dummySurface;
      this.manager := manager;
      this.connection := connection;
      inhibitor := None;
    }

    /** `is_inhibited`: an inhibitor is held. */
    predicate IsInhibited()
      reads this
    {
      inhibitor.Some?
    }

    /** Inhibiting means exactly one inhibitor is alive on the compositor's
        side; not inhibiting means none is. */
    lemma InhibitedIffOneAlive()
      requires Valid()
      ensures IsInhibited() <==> |LiveInhibitors(connection.log)| == 1
      ensures !IsInhibited() <==> LiveInhibitors(connection.log) == {}
    {
    }

    /** `set_inhibited`: when `inhibited` is already the state, nothing at all
        happens; otherwise a fresh queue is opened, one create (on the manager,
        for the dummy surface) or one destroy (of the held inhibitor) is sent,
        and one round-trip on that queue completes. */
    method SetInhibited(inhibited: bool)
      requires Valid()
      modifies this, connection
      ensures Valid() && IsInhibited() == inhibited
      ensures inhibited == old(IsInhibited()) ==>
        inhibitor == old(inhibitor) && unchanged(connection)
      ensures inhibited && !old(IsInhibited()) ==>
        inhibitor == Some(Object(old(connection.nextId))) &&
        connection.nextId == old(connection.nextId) + 1 &&
        connection.queues == old(connection.queues) + 1 &&
        connection.log == old(connection.log) +
          [CreateInhibitor(manager, dummySurface, inhibitor.value), Roundtrip(old(connection.queues))]
      ensures !inhibited && old(IsInhibited()) ==>
        inhibitor == None &&
        connection.nextId == old(connection.nextId) &&
        connection.queues == old(connection.queues) + 1 &&
        connection.log == old(connection.log) +
          [Destroy(old(inhibitor).value), Roundtrip(old(connection.queues))]
    {
      if inhibited == IsInhibited() {
        return;
      }
      var queue := connection.NewEventQueue();
      ghost var before := connection.log;
      if inhibited {
        var created := connection.NewObject();
        CreateKeepsBracketed(connection.log, manager, dummySurface, created, queue);
        connection.Send(CreateInhibitor(manager, dummySurface, created));
        inhibitor := Some(created);
      } else {
        // The guard leaves `Some` here, so the `take().unwrap()` succeeds.
        var held := inhibitor.value;
        inhibitor := None;
        DestroyKeepsBracketed(connection.log, held, queue);
        connection.Send(Destroy(held));
      }
      connection.Roundtrip(queue);
      assert connection.log == before + [connection.log[|before|], Roundtrip(queue)];
    }

    /** Two calls in a row with the same value have the effect of one: the
        second opens no queue, sends nothing and changes no state, so
        together they send at most one create or destroy and complete at
        most one round-trip. */
    method SetInhibitedTwice(inhibited: bool)
      requires Valid()
      modifies this, connection
      ensures Valid() && IsInhibited() == inhibited
      ensures inhibited == old(IsInhibited()) ==>
        inhibitor == old(inhibitor) && unchanged(connection)
      ensures inhibited && !old(IsInhibited()) ==>
        inhibitor == Some(Object(old(connection.nextId))) &&
        connection.nextId == old(connection.nextId) + 1 &&
        connection.queues == old(connection.queues) + 1 &&
        connection.log == old(connection.log) +
          [CreateInhibitor(manager, dummySurface, inhibitor.value), Roundtrip(old(connection.queues))]
      ensures !inhibited && old(IsInhibited()) ==>
        inhibitor == None &&
        connection.nextId == old(connection.nextId) &&
        connection.queues == old(connection.queues) + 1 &&
        connection.log == old(connection.log) +
          [Destroy(old(inhibitor).value), Roundtrip(old(connection.queues))]
    {
      SetInhibited(inhibited);
      SetInhibited(inhibited);
    }
  }
}
