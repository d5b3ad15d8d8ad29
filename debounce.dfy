/** The thread spawned in `main`: wait for a wake-up, keep waiting while
    more arrive within the one-second window, and once a window passes in
    silence ask whether audio is running and set the inhibitor to match.
    The channel is seen through what each receive returns, one entry per
    receive, in order. */
module Debounce {
  import opened Inhibitor
  import opened Audio

  /** What one receive observes: a wake-up, a window of one second that
      passes with nothing arriving, or the sender gone. The blocking `recv`
      of the initial phase sleeps through `Timeout` entries. */
  datatype Recv = Msg | Timeout | Disconnected

  /** Position `i` is a settle point: a silent window that directly follows
      a wake-up, before the channel has closed. */
  predicate SettlesAt(trace: seq<Recv>, i: int)
  {
    0 < i < |trace| && trace[i] == Timeout && trace[i - 1] == Msg &&
    Disconnected !in trace[..i]
  }

  /** `settled` lists, in increasing order, exactly the settle points below
      `n`. */
  predicate SettledBelow(trace: seq<Recv>, settled: seq<nat>, n: int)
  {
    (forall k :: 0 <= k < |settled| ==> settled[k] < n && SettlesAt(trace, settled[k])) &&
    (forall k, l :: 0 <= k < l < |settled| ==> settled[k] < settled[l]) &&
    (forall p :: 0 <= p < n && SettlesAt(trace, p) ==> p in settled)
  }

  /** The `'debounced` loop, entered at `start` right after a wake-up:
      it reads wake-ups until a silent window (`settle`, the window at
      `end - 1`), the sender going away (`closed`, at `end - 1`), or the end
      of the trace. Everything it reads before that last entry is a
      wake-up. */
  method AwaitSilence(trace: seq<Recv>, start: nat) returns (end: nat, settle: bool, closed: bool)
    requires 1 <= start <= |trace| && trace[start - 1] == Msg
    ensures start <= end <= |trace|
    ensures forall p :: start - 1 <= p < end - 1 ==> trace[p] == Msg
    ensures settle ==> !closed && start < end && trace[end - 1] == Timeout
    ensures closed ==> start < end && trace[end - 1] == Disconnected
    ensures !settle && !closed ==> end == |trace| && trace[end - 1] == Msg
  {
    end, settle, closed := start, false, false;
    while end < |trace| && !settle && !closed
      invariant start <= end <= |trace|
      invariant forall p :: start - 1 <= p < end - 1 ==> trace[p] == Msg
      invariant !settle && !closed ==> trace[end - 1] == Msg
      invariant settle ==> !closed && start < end && trace[end - 1] == Timeout
      invariant closed ==> start < end && trace[end - 1] == Disconnected
      decreases |trace| - end
    {
      var res := trace[end];
      end := end + 1;
      match res {
        case Msg =>
        case Timeout => settle := true;
        case Disconnected => closed := true;
      }
    }
  }

  /** One pass of the `'initial` loop up to its query, from position `i`
      where the loop waits in the blocking `recv`: a `Disconnected` ends it
      (`closed`), a `Timeout` is slept through, and a `Msg` starts the
      `'debounced` wait, which may end in a settle point at `end - 1`. The
      settle points below `end` are those below `i` plus that one. */
  method Receive(trace: seq<Recv>, i: nat, ghost settled: seq<nat>) returns (end: nat, settle: bool, closed: bool)
    requires i < |trace|
    requires i == 0 || trace[i - 1] == Timeout
    requires Disconnected !in trace[..i]
    requires SettledBelow(trace, settled, i)
    ensures i < end <= |trace|
    ensures settle ==> !closed && SettlesAt(trace, end - 1) && SettledBelow(trace, settled + [end - 1], end)
    ensures !settle ==> SettledBelow(trace, settled, end)
    ensures closed ==> Disconnected in trace[..end]
    ensures !closed ==> Disconnected !in trace[..end]
    ensures !closed && end < |trace| ==> trace[end - 1] == Timeout
  {
    var first := trace[i];
    if first == Disconnected {
      assert trace[..i + 1][i] == Disconnected;
      end, settle, closed := i + 1, false, true;
    } else if first == Msg {
      end, settle, closed := AwaitSilence(trace, i + 1);
      QuietStretch(trace, settled, i, end, settle, closed);
    } else {
      NoSettleAt(trace, settled, i);
      end, settle, closed := i + 1, false, false;
    }
  }

  /** The two labelled loops, `'initial` and `'debounced`, with `listing(k)`
      the `pactl list` output seen by the `k`-th query. The loop settles
      exactly at the settle points of the trace, in order; each settle makes
      one query and one `set_inhibited` call with its answer, so the last
      query decides the final state, and each settle appends at most two
      requests to the log, keeping every request sent before. It stops with `closed` when the sender is gone,
      and otherwise only when the trace is used up. */
  method Loop(app: App, trace: seq<Recv>, listing: nat -> string) returns (settled: seq<nat>, closed: bool)
    requires app.Valid()
    modifies app, app.connection
    ensures app.Valid()
    ensures SettledBelow(trace, settled, |trace|)
    ensures closed <==> Disconnected in trace
    ensures app.IsInhibited() ==
      if settled == [] then old(app.IsInhibited()) else AnyRunning(listing(|settled| - 1))
    ensures old(app.connection.log) <= app.connection.log
    ensures |app.connection.log| <= |old(app.connection.log)| + 2 * |settled|
  {
    var i := 0;
    settled, closed := [], false;
    while i < |trace| && !closed
      invariant 0 <= i <= |trace|
      invariant app.Valid()
      invariant closed ==> Disconnected in trace[..i]
      invariant !closed ==> Disconnected !in trace[..i]
      invariant !closed && i < |trace| ==> i == 0 || trace[i - 1] == Timeout
      invariant SettledBelow(trace, settled, i)
      invariant app.IsInhibited() ==
        if settled == [] then old(app.IsInhibited()) else AnyRunning(listing(|settled| - 1))
      invariant old(app.connection.log) <= app.connection.log
      invariant |app.connection.log| <= |old(app.connection.log)| + 2 * |settled|
      decreases |trace| - i
    {
      var settle;
      i, settle, closed := Receive(trace, i, settled);
      if settle {
        var anyRunning := AnyRunning(listing(|settled|));
        ghost var logged := |app.connection.log|;
        app.SetInhibited(anyRunning);
        assert |app.connection.log| <= logged + 2;
        settled := settled + [i - 1];
      }
    }
    if closed {
      NothingSettlesAfterClose(trace, settled, i);
    } else {
      assert trace[..i] == trace;
    }
  }

  /** Once the sender is gone nothing settles any more. */
  lemma NothingSettlesAfterClose(trace: seq<Recv>, settled: seq<nat>, i: nat)
    requires i <= |trace| && Disconnected in trace[..i]
    requires SettledBelow(trace, settled, i)
    ensures SettledBelow(trace, settled, |trace|)
    ensures Disconnected in trace
  {
    var k :| 0 <= k < i && trace[..i][k] == Disconnected;
    forall p | i <= p < |trace| ensures !SettlesAt(trace, p) {
      assert trace[..p][k] == Disconnected;
    }
    assert trace[k] == Disconnected;
  }

  /** A stretch of wake-ups from `from` up to `end - 1` adds no settle point
      except a silent window at `end - 1`; a close at `end - 1` means the
      sender is gone, and no close means no `Disconnected` so far. */
  lemma QuietStretch(trace: seq<Recv>, settled: seq<nat>, from: nat, end: nat, settle: bool, closed: bool)
    requires from < end <= |trace|
    requires from == 0 || trace[from - 1] == Timeout
    requires Disconnected !in trace[..from]
    requires SettledBelow(trace, settled, from)
    requires forall p :: from <= p < end - 1 ==> trace[p] == Msg
    requires settle ==> !closed && from + 1 < end && trace[end - 1] == Timeout
    requires closed ==> trace[end - 1] == Disconnected
    requires !settle && !closed ==> trace[end - 1] == Msg
    ensures closed ==> Disconnected in trace[..end]
    ensures !closed ==> Disconnected !in trace[..end]
    ensures settle ==> SettlesAt(trace, end - 1) && SettledBelow(trace, settled + [end - 1], end)
    ensures !settle ==> SettledBelow(trace, settled, end)
  {
    StretchOpen(trace, from, end - 1);
    if closed {
      assert trace[..end][end - 1] == Disconnected;
    } else {
      assert trace[..end] == trace[..end - 1] + [trace[end - 1]];
    }
    forall p | from <= p < end - 1 ensures !SettlesAt(trace, p) {
      assert trace[p] == Msg;
    }
    if settle {
      assert trace[end - 2] == Msg;
      assert SettlesAt(trace, end - 1);
    }
  }

  /** Wake-ups do not close the channel. */
  lemma StretchOpen(trace: seq<Recv>, from: nat, to: nat)
    requires from <= to <= |trace|
    requires Disconnected !in trace[..from]
    requires forall p :: from <= p < to ==> trace[p] == Msg
    ensures Disconnected !in trace[..to]
  {
    forall p | 0 <= p < to ensures trace[..to][p] != Disconnected {
      if p < from {
        assert trace[..to][p] == trace[..from][p];
      } else {
        assert trace[p] == Msg;
      }
    }
  }

  /** A silent window read by the blocking `recv` is not a settle point. */
  lemma NoSettleAt(trace: seq<Recv>, settled: seq<nat>, i: nat)
    requires i < |trace| && trace[i] == Timeout
    requires i == 0 || trace[i - 1] == Timeout
    requires Disconnected !in trace[..i]
    requires SettledBelow(trace, settled, i)
    ensures Disconnected !in trace[..i + 1]
    ensures SettledBelow(trace, settled, i + 1)
  {
    assert trace[..i + 1] == trace[..i] + [trace[i]];
  }

  /** `n` wake-ups, each within the window of the one before, then silence. */
  function Burst(n: nat): (t: seq<Recv>)
    ensures |t| == n + 1
  {
    seq(n, _ => Msg) + [Timeout]
  }

  /** A burst of `n >= 1` wake-ups settles once, at its closing silence: the
      wake-ups inside the window never cause a query. */
  lemma BurstSettlesOnce(n: nat)
    requires 1 <= n
    ensures forall i :: SettlesAt(Burst(n), i) <==> i == n
  {
    var t := Burst(n);
    assert forall j :: 0 <= j < n ==> t[j] == Msg;
    assert Disconnected !in t[..n] by {
      forall j | 0 <= j < n ensures t[..n][j] != Disconnected {
        assert t[..n][j] == t[j];
      }
    }
  }

  /** Settle points of a trace that ends in silence and never closes, then
      another trace: those of the first part, and those of the second part
      shifted by its length. */
  lemma SettlesAppend(t: seq<Recv>, u: seq<Recv>)
    requires t == [] || t[|t| - 1] == Timeout
    requires Disconnected !in t
    ensures forall i :: SettlesAt(t + u, i) <==>
      (i < |t| && SettlesAt(t, i)) || (|t| <= i && SettlesAt(u, i - |t|))
  {
    forall i ensures SettlesAt(t + u, i) <==>
      (i < |t| && SettlesAt(t, i)) || (|t| <= i && SettlesAt(u, i - |t|))
    {
      if 0 < i < |t| {
        assert (t + u)[..i] == t[..i];
      } else if |t| < i < |t| + |u| {
        assert (t + u)[..i] == t + u[..i - |t|];
        assert (t + u)[i - 1] == u[i - |t| - 1];
      }
    }
  }

  /** `n` silent windows. */
  function Quiet(n: nat): (t: seq<Recv>)
    ensures |t| == n
  {
    seq(n, _ => Timeout)
  }

  /** With no relevant event at all, the start-up wake-up alone settles
      once, at the first silent window, and never again. */
  lemma StartupSettlesOnce(quiet: nat)
    requires 1 <= quiet
    ensures forall i :: SettlesAt([Msg] + Quiet(quiet), i) <==> i == 1
  {
    var t := [Msg] + Quiet(quiet);
    assert t == Burst(1) + Quiet(quiet - 1);
    BurstSettlesOnce(1);
    SettlesAppend(Burst(1), Quiet(quiet - 1));
  }
}
