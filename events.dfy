/** The producer side of `main`: one wake-up before any line is read, then
    one per line of `pactl subscribe` that reports a change on a sink input
    or a source output. */
module Events {
  import opened Wrappers
  import opened Text

  const ChangePrefix := "Event 'change' on "
  const SinkInput := "sink-input"
  const SourceOutput := "source-output"

  /** The filter: strip the change prefix, then the rest must name a sink
      input or a source output. */
  predicate IsWake(line: string)
  {
    match StripPrefix(line, ChangePrefix)
    case None => false
    case Some(on) => StartsWith(on, SinkInput) || StartsWith(on, SourceOutput)
  }

  /** A line wakes the loop exactly when it begins with the change prefix
      followed directly by one of the two object kinds. */
  lemma IsWakeIff(line: string)
    ensures IsWake(line) <==>
      StartsWith(line, ChangePrefix + SinkInput) || StartsWith(line, ChangePrefix + SourceOutput)
  {
    StartsWithConcat(line, ChangePrefix, SinkInput);
    StartsWithConcat(line, ChangePrefix, SourceOutput);
  }

  /** A line that is the given prefix and then more text starts with it. */
  lemma StartsWithPrefix(p: string, rest: string)
    ensures StartsWith(p + rest, p)
  {
    assert (p + rest)[..|p|] == p;
  }

  /** Changes on sink inputs and source outputs are kept. */
  lemma KeptLines()
    ensures IsWake("Event 'change' on sink-input #1")
    ensures IsWake("Event 'change' on source-output #2")
  {
    assert "Event 'change' on sink-input #1" == ChangePrefix + SinkInput + " #1";
    assert "Event 'change' on source-output #2" == ChangePrefix + SourceOutput + " #2";
    StartsWithPrefix(ChangePrefix + SinkInput, " #1");
    StartsWithPrefix(ChangePrefix + SourceOutput, " #2");
    IsWakeIff("Event 'change' on sink-input #1");
    IsWakeIff("Event 'change' on source-output #2");
  }

  /** Events on clients of the sound server are dropped. */
  lemma ClientLineDropped()
    ensures !IsWake("Event 'change' on client #3")
  {
    var line, on := "Event 'change' on client #3", "client #3";
    assert line == ChangePrefix + on;
    StartsWithPrefix(ChangePrefix, on);
    var stripped := StripPrefix(line, ChangePrefix);
    assert ChangePrefix + stripped.value == ChangePrefix + on;
    assert stripped.value == (ChangePrefix + on)[|ChangePrefix|..] == on;
    assert |on| < |SinkInput| < |SourceOutput|;
  }

  /** Events other than `change` are dropped, whatever they are about. */
  lemma NewLineDropped()
    ensures !IsWake("Event 'new' on sink-input #1")
  {
    var line := "Event 'new' on sink-input #1";
    assert line[..|ChangePrefix|][7] != ChangePrefix[7];
  }

  /** A wake-up sent on the channel: the unconditional one sent before the
      first line, or one caused by the line at `index`. */
  datatype Wake = Initial | Line(index: nat)

  /** The `send`s of `main`, for the lines `pactl subscribe` prints: first the
      start-up wake, then one wake per line that passes the filter, in line
      order, and none for any other line. */
  method Produce(lines: seq<string>) returns (sent: seq<Wake>)
    ensures |sent| >= 1 && sent[0] == Initial
    ensures forall k :: 1 <= k < |sent| ==>
      sent[k].Line? && sent[k].index < |lines| && IsWake(lines[sent[k].index])
    ensures forall k, l :: 1 <= k < l < |sent| ==> sent[k].index < sent[l].index
    ensures forall i :: 0 <= i < |lines| && IsWake(lines[i]) ==> Line(i) in sent
  {
    sent := [Initial];
    for i := 0 to |lines|
      invariant |sent| >= 1 && sent[0] == Initial
      invariant forall k :: 1 <= k < |sent| ==>
        sent[k].Line? && sent[k].index < i && IsWake(lines[sent[k].index])
      invariant forall k, l :: 1 <= k < l < |sent| ==> sent[k].index < sent[l].index
      invariant forall j :: 0 <= j < i && IsWake(lines[j]) ==> Line(j) in sent
    {
      var on := StripPrefix(lines[i], ChangePrefix);
      if on.None? {
        continue;
      }
      if !StartsWith(on.value, SinkInput) && !StartsWith(on.value, SourceOutput) {
        continue;
      }
      sent := sent + [Line(i)];
    }
  }
}
