/** The decision of `check_uncorked`: some stream in the `pactl list`
    output is not corked. Running the command is left to the caller, which
    passes in the listing text. */
module Audio {
  import opened Text

  const Uncorked := "Corked: no"

  /** `raw.contains("Corked: no")` */
  predicate AnyRunning(listing: string)
  {
    Contains(listing, Uncorked)
  }

  /** The listing reports a running stream exactly when the marker occurs in
      it at some position. */
  lemma AnyRunningIff(listing: string)
    ensures AnyRunning(listing) <==> exists i: nat :: OccursAt(listing, Uncorked, i)
  {
    ContainsIff(listing, Uncorked);
  }

  /** More listing text never hides a running stream: a marker in either
      part is a marker in the whole. */
  lemma AnyRunningConcat(a: string, b: string)
    ensures AnyRunning(a) || AnyRunning(b) ==> AnyRunning(a + b)
  {
    AnyRunningIff(a);
    AnyRunningIff(b);
    AnyRunningIff(a + b);
    if AnyRunning(a) {
      var i: nat :| OccursAt(a, Uncorked, i);
      assert (a + b)[i..i + |Uncorked|] == a[i..i + |Uncorked|];
      assert OccursAt(a + b, Uncorked, i);
    } else if AnyRunning(b) {
      var i: nat :| OccursAt(b, Uncorked, i);
      assert (a + b)[|a| + i..|a| + i + |Uncorked|] == b[i..i + |Uncorked|];
      assert OccursAt(a + b, Uncorked, |a| + i);
    }
  }

  /** A listing whose only stream is corked reports nothing running. */
  lemma CorkedExample()
    ensures !AnyRunning("Corked: yes")
  {
    var corked := "Corked: yes";
    AnyRunningIff(corked);
    forall i: nat ensures !OccursAt(corked, Uncorked, i) {
      if i == 0 {
        assert corked[0..10][8] != Uncorked[8];
      } else if i == 1 {
        assert corked[1..11][0] != Uncorked[0];
      }
    }
  }

  /** A listing with an uncorked stream reports it. */
  lemma UncorkedExample()
    ensures AnyRunning("State: RUNNING\n\tCorked: no\n")
  {
    var head, tail := "State: RUNNING\n\t", Uncorked + "\n";
    AnyRunningIff(tail);
    assert OccursAt(tail, Uncorked, 0);
    AnyRunningConcat(head, tail);
    assert head + tail == "State: RUNNING\n\tCorked: no\n";
  }
}
