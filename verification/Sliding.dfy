/** Lists of timestamps that are pruned to a sliding window. */
module Sliding {
  import opened Sorting

  /** The timestamps later than a cutoff, in order. */
  function After(ts: seq<int>, cutoff: int): seq<int> {
    Filter(ts, (t: int) => t > cutoff)
  }

  ghost predicate Nondecreasing(ts: seq<int>) {
    forall i, j :: 0 <= i < j < |ts| ==> ts[i] <= ts[j]
  }

  /** Pruning twice is pruning at the later cutoff. */
  lemma AfterAfter(ts: seq<int>, early: int, late: int)
    requires early <= late
    ensures After(After(ts, early), late) == After(ts, late)
  {
    FilterFilter(ts, (t: int) => t > early, (t: int) => t > late, (t: int) => t > late);
  }

  lemma AfterAppend(ts: seq<int>, t: int, cutoff: int)
    ensures After(ts + [t], cutoff) == After(ts, cutoff) + if t > cutoff then [t] else []
  {
    FilterConcat(ts, [t], (t: int) => t > cutoff);
    assert [t][1..] == [];
  }

  lemma AfterMembers(ts: seq<int>, cutoff: int)
    ensures |After(ts, cutoff)| <= |ts|
    ensures forall i :: 0 <= i < |After(ts, cutoff)| ==> After(ts, cutoff)[i] in ts && After(ts, cutoff)[i] > cutoff
  {
    FilterMembers(ts, (t: int) => t > cutoff);
  }

  lemma AfterAll(ts: seq<int>, cutoff: int)
    requires forall i :: 0 <= i < |ts| ==> ts[i] > cutoff
    ensures After(ts, cutoff) == ts
  {
    FilterAll(ts, (t: int) => t > cutoff);
  }

  /** How many timestamps lie in the half-open interval (from, to]. */
  function InInterval(ts: seq<int>, from: int, to: int): nat {
    if ts == [] then 0
    else InInterval(ts[..|ts| - 1], from, to) + if from < ts[|ts| - 1] <= to then 1 else 0
  }

  /** How many lie in the window that ends at t. */
  function WindowLoad(ts: seq<int>, t: int, w: int): nat {
    InInterval(ts, t - w, t)
  }

  /** No window of length w holds more than max of the timestamps. */
  ghost predicate Sparse(ts: seq<int>, max: int, w: int) {
    forall t :: WindowLoad(ts, t, w) <= max
  }

  lemma IntervalAppend(ts: seq<int>, t: int, from: int, to: int)
    ensures InInterval(ts + [t], from, to) == InInterval(ts, from, to) + if from < t <= to then 1 else 0
  {
    assert (ts + [t])[..|ts|] == ts;
  }

  /** What lies in an interval that starts at the cutoff or later survives pruning. */
  lemma {:induction false} IntervalWithinAfter(ts: seq<int>, cutoff: int, from: int, to: int)
    requires cutoff <= from
    ensures InInterval(ts, from, to) <= |After(ts, cutoff)|
  {
    if ts != [] {
      var init, last := ts[..|ts| - 1], ts[|ts| - 1];
      assert ts == init + [last];
      IntervalWithinAfter(init, cutoff, from, to);
      AfterAppend(init, last, cutoff);
    }
  }

  /** With nothing later than the end of the interval, it holds exactly what pruning at its start keeps. */
  lemma {:induction false} IntervalIsAfter(ts: seq<int>, from: int, to: int)
    requires forall i :: 0 <= i < |ts| ==> ts[i] <= to
    ensures InInterval(ts, from, to) == |After(ts, from)|
  {
    if ts != [] {
      var init, last := ts[..|ts| - 1], ts[|ts| - 1];
      assert ts == init + [last];
      IntervalIsAfter(init, from, to);
      AfterAppend(init, last, from);
    }
  }
}
