/** The few `str` operations the program relies on: `strip_prefix`,
    `starts_with` and `contains`, over strings as sequences of characters. */
module Text {
  import opened Wrappers

  /** `s.starts_with(p)` */
  predicate StartsWith(s: string, p: string) {
    |p| <= |s| && s[..|p|] == p
  }

  /** `sub` occurs in `s` starting at index `i`. */
  predicate OccursAt(s: string, sub: string, i: nat) {
    i + |sub| <= |s| && s[i..i + |sub|] == sub
  }

  /** `s.strip_prefix(p)`: the rest of `s` when it starts with `p`. */
  function StripPrefix(s: string, p: string): (r: Option<string>)
    ensures r.Some? <==> StartsWith(s, p)
    ensures r.Some? ==> p + r.value == s
  {
    if StartsWith(s, p) then
      assert s == s[..|p|] + s[|p|..];
      Some(s[|p|..])
    else
      None
  }

  /** `s.contains(sub)`, as a scan from the left. */
  function Contains(s: string, sub: string): bool
    decreases |s|
  {
    if StartsWith(s, sub) then true
    else if |s| <= |sub| then false
    else Contains(s[1..], sub)
  }

  /** An occurrence at 0 is a prefix. */
  lemma OccursAtZero(s: string, sub: string)
    ensures OccursAt(s, sub, 0) <==> StartsWith(s, sub)
  {
  }

  /** An occurrence past 0 is an occurrence in the tail. */
  lemma OccursAtShift(s: string, sub: string, i: nat)
    requires 0 < i && 0 < |s|
    ensures OccursAt(s, sub, i) <==> OccursAt(s[1..], sub, i - 1)
  {
    if i + |sub| <= |s| {
      assert s[1..][i - 1..i - 1 + |sub|] == s[i..i + |sub|];
    }
  }

  /** The scan finds `sub` exactly when it occurs somewhere in `s`. */
  lemma {:induction false} ContainsIff(s: string, sub: string)
    ensures Contains(s, sub) <==> exists i: nat :: OccursAt(s, sub, i)
    decreases |s|
  {
    OccursAtZero(s, sub);
    if StartsWith(s, sub) {
      assert OccursAt(s, sub, 0);
    } else if |s| <= |sub| {
      forall i: nat ensures !OccursAt(s, sub, i) {
        if i > 0 {
          assert i + |sub| > |s|;
        }
      }
    } else {
      ContainsIff(s[1..], sub);
      forall i: nat | 0 < i ensures OccursAt(s, sub, i) <==> OccursAt(s[1..], sub, i - 1) {
        OccursAtShift(s, sub, i);
      }
      if Contains(s[1..], sub) {
        var i: nat :| OccursAt(s[1..], sub, i);
        assert OccursAt(s, sub, i + 1);
      }
    }
  }

  /** `starts_with(p + q)` is `starts_with(p)` followed by `q` on the rest. */
  lemma StartsWithConcat(s: string, p: string, q: string)
    ensures StartsWith(s, p + q) <==> StartsWith(s, p) && StartsWith(s[|p|..], q)
  {
    if StartsWith(s, p + q) {
      assert s[..|p|] == (p + q)[..|p|] == p;
      assert s[|p|..][..|q|] == s[|p|..|p| + |q|] == (p + q)[|p|..];
    }
    if StartsWith(s, p) && StartsWith(s[|p|..], q) {
      assert s[..|p| + |q|] == s[..|p|] + s[|p|..][..|q|];
    }
  }
}
