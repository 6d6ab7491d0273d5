/** Counting the `true` entries of a sequence of flags, and how that count grows along prefixes.
    The two neighbour scans of `AntiAlias` count their flags this way; the diff counter of
    `Comparison` counts pixels by its own recursion over rows and columns. */
module Tally {

  /** The number of `true` entries in `flags`, counted from the front so that a prefix extends by one step. */
  function CountTrue(flags: seq<bool>): (n: nat)
    ensures n <= |flags|
  {
    if |flags| == 0 then 0
    else CountTrue(flags[..|flags| - 1]) + (if flags[|flags| - 1] then 1 else 0)
  }

  /** Extending a prefix by one entry adds one exactly when that entry is `true`. */
  lemma CountTrueStep(flags: seq<bool>, k: nat)
    requires k < |flags|
    ensures CountTrue(flags[..k + 1]) == CountTrue(flags[..k]) + (if flags[k] then 1 else 0)
  {
    assert flags[..k + 1][..k] == flags[..k];
  }

  /** The count of a prefix never exceeds the count of a longer prefix. */
  lemma {:induction false} CountTruePrefix(flags: seq<bool>, m: nat, n: nat)
    requires m <= n <= |flags|
    ensures CountTrue(flags[..m]) <= CountTrue(flags[..n])
    decreases n - m
  {
    if m < n {
      CountTrueStep(flags, n - 1);
      CountTruePrefix(flags, m, n - 1);
    }
  }

  /** A flag that is `true` wherever `small` is `true` is counted at least as often. */
  lemma {:induction false} CountTruePointwise(small: seq<bool>, large: seq<bool>)
    requires |small| == |large|
    requires forall k :: 0 <= k < |small| && small[k] ==> large[k]
    ensures CountTrue(small) <= CountTrue(large)
  {
    if |small| > 0 {
      CountTruePointwise(small[..|small| - 1], large[..|large| - 1]);
    }
  }

  /** A sequence with no `true` entry counts zero. */
  lemma {:induction false} CountTrueNone(flags: seq<bool>)
    requires forall k :: 0 <= k < |flags| ==> !flags[k]
    ensures CountTrue(flags) == 0
  {
    if |flags| > 0 {
      CountTrueNone(flags[..|flags| - 1]);
    }
  }

  /** Three distinct `true` entries give a count of at least three. */
  lemma CountTrueThree(flags: seq<bool>, i: nat, j: nat, k: nat)
    requires i < j < k < |flags|
    requires flags[i] && flags[j] && flags[k]
    ensures CountTrue(flags) >= 3
  {
    hide CountTrue;
    CountTrueStep(flags, i);
    CountTruePrefix(flags, i + 1, j);
    CountTrueStep(flags, j);
    CountTruePrefix(flags, j + 1, k);
    CountTrueStep(flags, k);
    CountTruePrefix(flags, k + 1, |flags|);
    assert flags[..|flags|] == flags;
  }
}
