# pulse-inhibit, modelled in Dafny

pulse-inhibit keeps a Wayland session from going idle while audio plays. It
binds `wl_compositor` and `zwp_idle_inhibit_manager_v1` from the registry,
creates one invisible surface, and then holds or releases one idle inhibitor
on that surface. A thread waits for wake-ups from `pactl subscribe`, lets
bursts settle for a one-second window, asks `pactl list` whether any stream
reports `Corked: no`, and sets the inhibitor to the answer.

This project models the logic of `src/main.rs`, one module per component:

- `Wrappers`: `Option` and `Result`.
- `Text`: `strip_prefix`, `starts_with` and `contains` on strings.
- `Wayland`: the connection as a request log. A bound global is `Bound(name, version)`; a created object is `Object(id)`. `LiveInhibitors` and `Bracketed` define the live inhibitors of a log.
- `Registry`: the code the `proxies!` macro expands to for its two fields. `Dispatch` is the handler on values, `Discover` is the fold over one round-trip, and the `Proxies` class is the struct the handler fills in place.
- `Inhibitor`: the `App` class and its `SetInhibited` state machine.
- `Startup`: `main` up to building the `App`.
- `Events`: the line filter and the producer loop of `main`.
- `Audio`: the `Corked: no` decision.
- `Debounce`: the two labelled loops of the thread, read from a trace of receive outcomes (`Msg`, `Timeout`, `Disconnected`).

A few reading choices:

- Registry binding is last-wins. The handler overwrites `state.$field` on every matching `Global`, so the last global wins.
- The advertised version is ignored (`version: _`). The bind always uses the table version, 1, even when the compositor advertises less.
- `main` checks the idle-inhibit manager before the compositor.
- In a trace, a `Timeout` read by the blocking `recv` of the `'initial` loop is a quiet second that `recv` sleeps through. A settle point is a `Timeout` that directly follows a `Msg`, with no `Disconnected` before it.
- The `'debounced` loop is the method `Debounce.AwaitSilence`. One pass of the `'initial` loop up to its query is `Debounce.Receive`.

## Model

| member | source | states |
|---|---|---|
| `Text.StripPrefix` | src/main.rs:187 | the result is present exactly when the line starts with the prefix, and the prefix followed by the result is the line |
| `Text.ContainsIff` | src/main.rs:200 | the left-to-right scan finds a pattern exactly when the pattern occurs at some position |
| `Text.StartsWithConcat` | src/main.rs:187-190 | starting with `p + q` is the same as starting with `p` and then, after `p`, with `q` |
| `Wayland.NoInhibitorRequests` | src/main.rs:118-152 | a log without inhibitor requests leaves no inhibitor alive and is well bracketed |
| `Wayland.CreateKeepsBracketed` | src/main.rs:91-95 | a create followed by a round-trip, sent while none is alive, leaves exactly the new inhibitor alive and keeps the log well bracketed |
| `Wayland.DestroyKeepsBracketed` | src/main.rs:96-98 | destroying the one live inhibitor, then a round-trip, leaves none alive and keeps the log well bracketed |
| `Inhibitor.App.constructor` | src/main.rs:147-152 | a new app holds no inhibitor and keeps the surface, manager and connection it is given |
| `Inhibitor.App.InhibitedIffOneAlive` | src/main.rs:81-83 | `is_inhibited` holds exactly when one inhibitor is alive on the compositor, and fails exactly when none is |
| `Inhibitor.App.SetInhibited` | src/main.rs:85-101 | afterwards the state is the requested one. With no change there is no queue, no request and no round-trip. Turning on opens one queue, sends one create on the manager for the dummy surface, then one round-trip. Turning off opens one queue, destroys the held inhibitor, then one round-trip. The log stays well bracketed |
| `Inhibitor.App.SetInhibitedTwice` | src/main.rs:85-101 | two calls with the same value have exactly the effect of one call: the same final inhibitor, queue count, object count and request log as one `set_inhibited`, so at most one create or destroy and one round-trip |
| `Registry.FirstMatch` | src/main.rs:51-57 | the index returned is the first table row naming the interface; no index means no row names it |
| `Registry.TableRows` | src/main.rs:66-71 | `wl_compositor` selects the first row and `zwp_idle_inhibit_manager_v1` the second; the two rows hold different fields |
| `Registry.Dispatch` | src/main.rs:45-58 | a selecting `Global` sets its row's field to the global's name at the row's version; every other field is left alone, and so is every field for any other event |
| `Registry.DiscoverSnoc` | src/main.rs:132 | dispatching one more event after a fold is the fold over the longer event list |
| `Registry.DiscoverUnmatched` | src/main.rs:45-58 | events that never select a field leave it as it was |
| `Registry.DiscoverLastWins` | src/main.rs:51-56 | after discovery a field holds the proxy of the last event that selects it |
| `Registry.DiscoverBoundIff` | src/main.rs:128-132 | after discovery a field is bound exactly when it was bound before or some event selects it |
| `Registry.Binds` | src/main.rs:51-56 | discovery sends only bind requests, exactly as many as there are selecting events |
| `Registry.BindsInOrder` | src/main.rs:51-56 | the binds come in event order: the request of the selecting event at `k` comes right after those of the selecting events before it, and names that global, its interface and its row's version |
| `Registry.Proxies.constructor` | src/main.rs:128-131 | both fields start unbound |
| `Registry.Proxies.Handle` | src/main.rs:37-59 | the handler tries the rows in order and binds at the first match; the struct's new value is `Dispatch` of the old one, and the log gains the matching bind request |
| `Registry.Proxies.DispatchAll` | src/main.rs:122-135 | the round-trip dispatches every event in order, so the struct ends as the fold over the events; the log gains the binds and then the round-trip |
| `Startup.Require` | src/main.rs:137-140 | start-up goes on exactly when both fields are bound; a missing manager is reported first, before a missing compositor |
| `Startup.StartupSucceedsIff` | src/main.rs:122-140 | start-up gets past discovery exactly when the compositor advertises both a `wl_compositor` and a `zwp_idle_inhibit_manager_v1` global |
| `Startup.MissingManagerFails` | src/main.rs:137-139 | without a manager global start-up fails on the manager, whatever else is advertised |
| `Startup.Discovery` | src/main.rs:122-135 | the `proxies` block opens one queue, sends the registry request, and ends with the fold of the registry events over an unbound struct; the log gains the registry request, the binds, then one round-trip on that queue |
| `Startup.Start` | src/main.rs:118-152 | on failure only the registry request, the binds and one round-trip were sent, and no surface was created. On success the app holds no inhibitor, its manager is the bound manager, and the surface was created on the bound compositor in a second round-trip |
| `Events.IsWakeIff` | src/main.rs:186-192 | a line wakes the loop exactly when it starts with `Event 'change' on ` directly followed by `sink-input` or `source-output` |
| `Events.KeptLines` | src/main.rs:190 | changes on `sink-input #1` and `source-output #2` wake the loop |
| `Events.ClientLineDropped` | src/main.rs:186-191 | a change on `client #3` is dropped |
| `Events.NewLineDropped` | src/main.rs:187-189 | a `new` event on a sink input is dropped |
| `Events.Produce` | src/main.rs:182-194 | the start-up wake-up is sent first, before any line. Then exactly one wake-up is sent per line that passes the filter, in line order, and none for any other line |
| `Audio.AnyRunningIff` | src/main.rs:197-200 | a listing reports a running stream exactly when `Corked: no` occurs in it |
| `Audio.AnyRunningConcat` | src/main.rs:200 | a marker in either part of a listing is a marker in the whole |
| `Audio.CorkedExample` | src/main.rs:200 | a listing with `Corked: yes` only reports nothing running |
| `Audio.UncorkedExample` | src/main.rs:200 | a listing with `Corked: no` reports a running stream |
| `Debounce.AwaitSilence` | src/main.rs:160-167 | the `'debounced` loop reads only wake-ups until it ends on a silent window (settle), on a close, or at the end of the trace |
| `Debounce.Receive` | src/main.rs:155-167 | one pass of the `'initial` loop: a close ends the loop, a quiet second is slept through, and a wake-up starts the `'debounced` wait. The settle points found so far grow by exactly the one it may end on |
| `Debounce.Loop` | src/main.rs:155-171 | the thread settles at exactly the settle points of the trace, in order. Each settle queries once and calls `set_inhibited` with the answer, so the last answer decides the final state. The requests sent before the loop stay in the log, and each settle appends at most two more. It stops on `Disconnected` in either phase, and otherwise only at the end of the trace |
| `Debounce.BurstSettlesOnce` | src/main.rs:160-169 | a burst of `n >= 1` wake-ups followed by a silent window settles exactly once, at that window; the wake-ups inside the window never cause a query |
| `Debounce.SettlesAppend` | src/main.rs:155-171 | after a part that ends in silence without a close, the settle points of the rest are those of the rest alone, shifted |
| `Debounce.StartupSettlesOnce` | src/main.rs:182 | with no relevant event, the start-up wake-up alone settles once, at the first silent window, and never again |

## Left out

- The Wayland transport and wire protocol are not modelled: `Connection`, event queues, `delegate_noop!`, the `Ignored` handler and the idle-inhibit protocol encoding. The connection is a log of requests, a queue counter and an object-id counter.
- The model has no failure paths for the transport. `connect_to_env` and the round-trips in `main` panic the main thread and end the process. A failed round-trip in `set_inhibited` ends only the debounce thread; the process then ends at the next `send` (see below). Here round-trips always succeed.
- The registry object returned by `get_registry` has no identity in the model. The `GetRegistry` request stands for it.
- Interface names come from `wayland-client` and `wayland-protocols`, which are not part of this model. They appear as the constants `wl_compositor` and `zwp_idle_inhibit_manager_v1`.
- Spawning `pactl subscribe` and `pactl list`, line reading and UTF-8 decoding are process I/O. The lines and the listing text are inputs (`listing(k)` is the text seen by the `k`-th query).
- The thread spawn and the capacity-1 `sync_channel`, with its blocking `send`, are concurrency. `Events.Produce` gives the wake-ups sent; `Debounce.Loop` takes the receive outcomes as a separate trace. How sends and quiet seconds interleave is not modelled.
- `send(()).unwrap()` panics once the receiving thread has ended. The producer model does not include that failure.
- Real time is not modelled. An expired one-second `recv_timeout` is a `Timeout` entry.
- Debounce.Loop: its contract states the final inhibitor state and that each settle appends at most two requests, not the argument of every intermediate `set_inhibited` call. Each call uses the answer of its own query, but only the last answer appears in the contract.
