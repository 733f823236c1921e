/** Moments that keep a minimum distance, and how many of them a window can hold. */
module Spacing {

  /** Time i comes at least the gap after the one before it. */
  ghost predicate Apart(times: seq<nat>, gap: nat, i: nat)
    requires 0 < i < |times|
  {
    times[i - 1] + gap <= times[i]
  }

  ghost predicate Spaced(times: seq<nat>, gap: nat) {
    forall i :: 0 < i < |times| ==> Apart(times, gap, i)
  }

  /** How many of the times fall in the window [from, from + length]. */
  function Within(times: seq<nat>, from: nat, length: nat): nat {
    if times == [] then 0
    else
      var n := |times| - 1;
      Within(times[..n], from, length) + if from <= times[n] <= from + length then 1 else 0
  }

  lemma PrefixIsSpaced(times: seq<nat>, gap: nat)
    requires times != [] && Spaced(times, gap)
    ensures Spaced(times[..|times| - 1], gap)
  {
    var init := times[..|times| - 1];
    forall i | 0 < i < |init|
      ensures Apart(init, gap, i)
    {
      assert Apart(times, gap, i);
    }
  }

  /** Each further time in a window takes up one more gap of it. */
  lemma {:induction false} WindowUpToTheLast(times: seq<nat>, gap: nat, from: nat, length: nat)
    requires gap > 0 && times != [] && Spaced(times, gap) && times[|times| - 1] <= from + length
    ensures times[|times| - 1] < from ==> Within(times, from, length) == 0
    ensures from <= times[|times| - 1] ==> (Within(times, from, length) - 1) * gap <= times[|times| - 1] - from
  {
    var n := |times| - 1;
    if n > 0 {
      var init, last, before := times[..n], times[n], times[n - 1];
      assert Apart(times, gap, n);
      PrefixIsSpaced(times, gap);
      WindowUpToTheLast(init, gap, from, length);
      if from <= last {
        var fewer := Within(init, from, length);
        assert Within(times, from, length) - 1 == fewer;
        assert fewer * gap == (fewer - 1) * gap + gap;
      }
    }
  }

  lemma {:induction false} WindowInGaps(times: seq<nat>, gap: nat, from: nat, length: nat)
    requires gap > 0 && Spaced(times, gap)
    ensures Within(times, from, length) == 0 || (Within(times, from, length) - 1) * gap <= length
  {
    if times != [] {
      var n := |times| - 1;
      if times[n] <= from + length {
        WindowUpToTheLast(times, gap, from, length);
      } else {
        PrefixIsSpaced(times, gap);
        WindowInGaps(times[..n], gap, from, length);
      }
    }
  }

  lemma {:induction false} TimesIsMonotone(a: nat, b: nat, gap: nat)
    requires a <= b
    ensures a * gap <= b * gap
  {
    if a < b {
      TimesIsMonotone(a, b - 1, gap);
      assert b * gap == (b - 1) * gap + gap;
    }
  }

  lemma OneMoreTime(n: nat, gap: nat)
    ensures (n + 1) * gap == n * gap + gap
  {
  }

  lemma QuotientIsAtLeast(a: nat, b: nat, gap: nat)
    requires gap > 0 && a * gap <= b
    ensures a <= b / gap
  {
    var q := b / gap;
    assert b == q * gap + b % gap;
    if q < a {
      OneMoreTime(q, gap);
      TimesIsMonotone(q + 1, a, gap);
      assert false;
    }
  }

  /** A window of length W holds at most W / gap + 1 times. */
  lemma WindowHoldsFew(times: seq<nat>, gap: nat, from: nat, length: nat)
    requires gap > 0 && Spaced(times, gap)
    ensures Within(times, from, length) <= length / gap + 1
  {
    WindowInGaps(times, gap, from, length);
    if Within(times, from, length) > 0 {
      QuotientIsAtLeast(Within(times, from, length) - 1, length, gap);
    }
  }
}
