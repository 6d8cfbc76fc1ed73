/**
 The heuristic patch scheduler (backend/services/optimization.py).

 Times and durations are whole seconds; every item takes half an hour. Assignments and
 constraints 1 to 3 are those the constraint model states for any schedule. The greedy
 schedule is compared with every assignment that satisfies them.
 */
module Scheduler {
  import opened Results
  import opened Sorting
  import Scoring

  const SLOT := 1800

  /** A vulnerability on an asset, with the optional runtime record the optimizer passes on. */
  datatype AssetVuln = AssetVuln(
    vulnerability: Scoring.Vulnerability, asset: Scoring.Asset, runtime: Option<Scoring.Runtime>)

  datatype Window = Window(id: int, start: int, end: int)

  /** The limits in force: patches per window and downtime in seconds. */
  datatype Limits = Limits(maxVulns: int, maxDowntime: int)

  /** One entry of the schedule; window is the position in the list of windows. */
  datatype Entry = Entry(window: nat, vulns: seq<AssetVuln>, risk: int, duration: int, assets: set<int>)

  function Score(av: AssetVuln): (s: int)
    ensures 0 <= s <= 100
  {
    Scoring.OptimizerScore(av.vulnerability, av.asset, av.runtime)
  }

  function Risk(items: seq<AssetVuln>): int {
    if items == [] then 0 else Score(items[0]) + Risk(items[1..])
  }

  function AssetsOf(items: seq<AssetVuln>): set<int> {
    if items == [] then {} else {items[0].asset.id} + AssetsOf(items[1..])
  }

  function Min(a: int, b: int): int { if a <= b then a else b }

  /** The time one window offers. */
  function Limit(g: Limits, w: Window): int {
    Min(g.maxDowntime, w.end - w.start)
  }

  // ---------- the specification: constraints 1 to 3 ----------

  /**
   Item i goes to window a[i]; the value |ws| stands for "not scheduled". As a function of the
   item it gives each item at most one window, which is constraint 1.
   */
  ghost predicate IsAssignment(a: seq<nat>, n: nat, ws: seq<Window>) {
    |a| == n && forall i :: 0 <= i < n ==> a[i] <= |ws|
  }

  /** Adds up a quantity over items and the windows they go to. */
  function Tally(items: seq<AssetVuln>, a: seq<nat>, f: (AssetVuln, nat) -> int): int
    requires |a| == |items|
  {
    if items == [] then 0 else f(items[0], a[0]) + Tally(items[1..], a[1..], f)
  }

  /** Counts the items of window j. */
  function InWindow(j: nat): (AssetVuln, nat) -> int {
    (x: AssetVuln, w: nat) => if w == j then 1 else 0
  }

  /** Counts the items of windows 0..k-1. */
  function Before(k: nat): (AssetVuln, nat) -> int {
    (x: AssetVuln, w: nat) => if w < k then 1 else 0
  }

  /** Adds up the risk of the items of windows 0..k-1. */
  function RiskBefore(k: nat): (AssetVuln, nat) -> int {
    (x: AssetVuln, w: nat) => if w < k then Score(x) else 0
  }

  /** Risk times the number of windows it stays unpatched, up to m of them. */
  function RiskTime(m: nat): (AssetVuln, nat) -> int {
    (x: AssetVuln, w: nat) => Score(x) * (if w < m then w else m)
  }

  /** Integer conversion of limit hours times 100, as the constraint model rounds it. */
  function Hundredths(seconds: int): int {
    if seconds >= 0 then seconds / 36 else -(-seconds / 36)
  }

  /** Constraints 2 and 3 for a window that holds load items. */
  predicate Fits(g: Limits, w: Window, load: int) {
    load <= g.maxVulns && 50 * load <= Hundredths(Limit(g, w))
  }

  ghost predicate Feasible(items: seq<AssetVuln>, a: seq<nat>, g: Limits, ws: seq<Window>) {
    && IsAssignment(a, |items|, ws)
    && forall j :: 0 <= j < |ws| ==> Fits(g, ws[j], Tally(items, a, InWindow(j)))
  }

  // ---------- capacities ----------

  /** The most items constraints 2 and 3 let into one window. */
  function Capacity(g: Limits, w: Window): nat {
    if g.maxVulns <= 0 || Limit(g, w) < 0 then 0 else Min(g.maxVulns, Limit(g, w) / SLOT)
  }

  /** The items the loop puts into window j while there are any: it places the first item of a new window unchecked. */
  function Room(g: Limits, ws: seq<Window>, j: nat): nat
    requires j < |ws|
  {
    if j > 0 && Capacity(g, ws[j]) == 0 then 1 else Capacity(g, ws[j])
  }

  /** Room in windows j..k-1 together. */
  function RoomIn(g: Limits, ws: seq<Window>, j: nat, k: nat): nat
    requires j <= k <= |ws|
    decreases k - j
  {
    if j == k then 0 else Room(g, ws, j) + RoomIn(g, ws, j + 1, k)
  }

  lemma {:induction false} RoomInLast(g: Limits, ws: seq<Window>, j: nat, k: nat)
    requires j <= k < |ws|
    ensures RoomIn(g, ws, j, k + 1) == RoomIn(g, ws, j, k) + Room(g, ws, k)
    decreases k - j
  {
    if j < k {
      RoomInLast(g, ws, j + 1, k);
    }
  }

  /** A load is admitted exactly when the limits admit the empty window and the load is within capacity. */
  lemma FitsIff(g: Limits, w: Window, load: nat)
    ensures Fits(g, w, load) <==> g.maxVulns >= 0 && Limit(g, w) > -36 && load <= Capacity(g, w)
  {
    var l := Limit(g, w);
    if l >= 0 {
      assert 50 * load <= l / 36 <==> 1800 * load <= l;
      assert load <= l / 1800 <==> 1800 * load <= l;
    }
  }

  /** Converting hours times 100 to an integer drops the fraction towards zero. */
  lemma HundredthsTruncates(seconds: int)
    ensures seconds >= 0 ==> 36 * Hundredths(seconds) <= seconds < 36 * Hundredths(seconds) + 36
    ensures seconds < 0 ==> 36 * Hundredths(seconds) - 36 < seconds <= 36 * Hundredths(seconds)
  {
  }

  /** The constraints bind the load by the number of patches, by the downtime allowed and by the window's own length. */
  lemma FitsMeans(g: Limits, w: Window, load: int)
    requires load >= 0
    ensures Fits(g, w, load)
       <==> load <= g.maxVulns && 50 * load <= Hundredths(g.maxDowntime) && 50 * load <= Hundredths(w.end - w.start)
  {
    HundredthsMonotone(g.maxDowntime, w.end - w.start);
    HundredthsMonotone(w.end - w.start, g.maxDowntime);
  }

  lemma HundredthsMonotone(a: int, b: int)
    ensures a <= b ==> Hundredths(a) <= Hundredths(b)
  {
    HundredthsTruncates(a);
    HundredthsTruncates(b);
  }

  /** A window takes up to n > 0 half hours exactly when its patches and both time limits allow them. */
  lemma CapacityMeans(g: Limits, w: Window, n: nat)
    requires n > 0
    ensures n <= Capacity(g, w) <==> n <= g.maxVulns && 1800 * n <= g.maxDowntime && 1800 * n <= w.end - w.start
  {
    var l := Limit(g, w);
    if l >= 0 {
      assert n <= l / 1800 <==> 1800 * n <= l;
    }
  }

  // ---------- the schedule as a function of the sorted items ----------

  function EntryOf(j: nat, vulns: seq<AssetVuln>): Entry {
    Entry(j, vulns, Risk(vulns), SLOT * |vulns|, AssetsOf(vulns))
  }

  /** From window j on, each window takes the next Room items; a window that gets none leaves no entry. */
  function Pack(items: seq<AssetVuln>, g: Limits, ws: seq<Window>, j: nat): seq<Entry>
    requires j <= |ws|
    decreases |ws| - j
  {
    if j == |ws| || items == [] then []
    else
      var t := Min(Room(g, ws, j), |items|);
      (if t == 0 then [] else [EntryOf(j, items[..t])]) + Pack(items[t..], g, ws, j + 1)
  }

  function Repeat(j: nat, n: nat): (r: seq<nat>)
    ensures |r| == n && forall i :: 0 <= i < n ==> r[i] == j
  {
    if n == 0 then [] else [j] + Repeat(j, n - 1)
  }

  /** The same packing as an assignment of positions in the sorted list. */
  function Place(n: nat, g: Limits, ws: seq<Window>, j: nat): (p: seq<nat>)
    requires j <= |ws|
    ensures |p| == n && forall i :: 0 <= i < n ==> j <= p[i] <= |ws|
    decreases |ws| - j
  {
    if j == |ws| then Repeat(|ws|, n)
    else
      var t := Min(Room(g, ws, j), n);
      Repeat(j, t) + Place(n - t, g, ws, j + 1)
  }

  // ---------- the loop ----------

  lemma {:induction false} RiskAppend(items: seq<AssetVuln>, av: AssetVuln)
    ensures Risk(items + [av]) == Risk(items) + Score(av)
    ensures AssetsOf(items + [av]) == AssetsOf(items) + {av.asset.id}
  {
    if items == [] {
      assert [av][1..] == [];
    } else {
      RiskAppend(items[1..], av);
      assert (items + [av])[1..] == items[1..] + [av];
    }
  }

  /** The capacity check stops adding exactly when the window has taken its Room. */
  lemma SlotFits(g: Limits, ws: seq<Window>, j: nat, count: nat)
    requires j < |ws| && count <= Room(g, ws, j) && (j > 0 ==> count > 0)
    ensures count < g.maxVulns && SLOT * count + SLOT <= Limit(g, ws[j]) <==> count < Room(g, ws, j)
  {
    var l := Limit(g, ws[j]);
    if l >= 0 {
      assert 1800 * (count + 1) <= l <==> count + 1 <= l / 1800;
    }
  }

  /** Closing a full window leaves exactly what Pack continues with. */
  lemma PackClosesWindow(current: seq<AssetVuln>, rest: seq<AssetVuln>, g: Limits, ws: seq<Window>, j: nat)
    requires j < |ws| && rest != [] && |current| == Room(g, ws, j)
    ensures Pack(current + rest, g, ws, j)
            == (if current == [] then [] else [EntryOf(j, current)]) + Pack(rest, g, ws, j + 1)
  {
    assert (current + rest)[..|current|] == current;
    assert (current + rest)[|current|..] == rest;
  }

  /** Closing a full window on the schedule built so far. */
  lemma CloseWindow(schedule: seq<Entry>, current: seq<AssetVuln>, rest: seq<AssetVuln>,
                    g: Limits, ws: seq<Window>, j: nat)
    requires j < |ws| && rest != [] && |current| == Room(g, ws, j)
    ensures schedule + Pack(current + rest, g, ws, j)
            == (if current == [] then schedule else schedule + [EntryOf(j, current)]) + Pack(rest, g, ws, j + 1)
    ensures j + 1 == |ws| ==> (schedule + Pack(current + rest, g, ws, j)
                               == if current == [] then schedule else schedule + [EntryOf(j, current)])
  {
    PackClosesWindow(current, rest, g, ws, j);
  }

  /** Adding an item to the open window does not change what is left to be packed. */
  lemma GrowWindow(current: seq<AssetVuln>, rest: seq<AssetVuln>)
    requires rest != []
    ensures current + rest == (current + [rest[0]]) + rest[1..]
    ensures Risk(current + [rest[0]]) == Risk(current) + Score(rest[0])
    ensures AssetsOf(current + [rest[0]]) == AssetsOf(current) + {rest[0].asset.id}
  {
    RiskAppend(current, rest[0]);
  }

  /** A new window opens with one item. */
  lemma OpenWindow(rest: seq<AssetVuln>)
    requires rest != []
    ensures [rest[0]] + rest[1..] == rest
    ensures Risk([rest[0]]) == Score(rest[0]) && AssetsOf([rest[0]]) == {rest[0].asset.id}
  {
    RiskAppend([], rest[0]);
    assert [] + [rest[0]] == [rest[0]];
  }

  /** When the items run out the open window becomes the last entry. */
  lemma LastWindow(schedule: seq<Entry>, current: seq<AssetVuln>, g: Limits, ws: seq<Window>, j: nat)
    requires j < |ws| && |current| <= Room(g, ws, j)
    ensures schedule + Pack(current, g, ws, j)
            == if current == [] then schedule else schedule + [EntryOf(j, current)]
  {
    assert current[..|current|] == current && current[|current|..] == [];
  }

  /** Window j is open with current: what is left to be packed completes the schedule to the goal. */
  ghost predicate IsOpen(schedule: seq<Entry>, current: seq<AssetVuln>, rest: seq<AssetVuln>, g: Limits, ws: seq<Window>,
                         j: nat, goal: seq<Entry>)
  {
    && j < |ws| && (j > 0 ==> current != []) && |current| <= Room(g, ws, j)
    && schedule + Pack(current + rest, g, ws, j) == goal
  }

  lemma StaysOpen(schedule: seq<Entry>, current: seq<AssetVuln>, rest: seq<AssetVuln>, g: Limits, ws: seq<Window>,
                  j: nat, goal: seq<Entry>)
    requires IsOpen(schedule, current, rest, g, ws, j, goal) && rest != [] && |current| < Room(g, ws, j)
    ensures IsOpen(schedule, current + [rest[0]], rest[1..], g, ws, j, goal)
  {
    GrowWindow(current, rest);
  }

  lemma OpensNext(schedule: seq<Entry>, current: seq<AssetVuln>, rest: seq<AssetVuln>, g: Limits, ws: seq<Window>,
                  j: nat, goal: seq<Entry>)
    requires IsOpen(schedule, current, rest, g, ws, j, goal) && rest != [] && |current| == Room(g, ws, j)
    ensures var schedule' := if current == [] then schedule else schedule + [EntryOf(j, current)];
            if j + 1 < |ws| then IsOpen(schedule', [rest[0]], rest[1..], g, ws, j + 1, goal) else schedule' == goal
  {
    CloseWindow(schedule, current, rest, g, ws, j);
    OpenWindow(rest);
  }

  method OptimizeWithHeuristic(items: seq<AssetVuln>, ws: seq<Window>, g: Limits) returns (schedule: seq<Entry>)
    ensures schedule == Pack(SortDesc(items, Score), g, ws, 0)
  {
    var rest := SortDesc(items, Score);
    ghost var goal := Pack(rest, g, ws, 0);
    schedule := [];
    var windowIdx, current, duration, risk, affected := 0, [], 0, 0, {};
    assert [] + rest == rest && [] + goal == goal;
    while rest != [] && windowIdx < |ws|
      invariant windowIdx <= |ws|
      invariant duration == SLOT * |current| && risk == Risk(current) && affected == AssetsOf(current)
      invariant if windowIdx < |ws| then IsOpen(schedule, current, rest, g, ws, windowIdx, goal) else schedule == goal
      decreases |rest|
    {
      var av := rest[0];
      SlotFits(g, ws, windowIdx, |current|);
      if |current| < g.maxVulns && duration + SLOT <= Limit(g, ws[windowIdx]) {
        StaysOpen(schedule, current, rest, g, ws, windowIdx, goal);
        RiskAppend(current, av);
        current, duration, risk, affected := current + [av], duration + SLOT, risk + Score(av), affected + {av.asset.id};
      } else {
        OpensNext(schedule, current, rest, g, ws, windowIdx, goal);
        if current != [] {
          schedule := schedule + [Entry(windowIdx, current, risk, duration, affected)];
        }
        windowIdx := windowIdx + 1;
        if windowIdx < |ws| {
          OpenWindow(rest);
          current, duration, risk, affected := [av], SLOT, Score(av), {av.asset.id};
        }
      }
      rest := rest[1..];
    }
    if windowIdx < |ws| {
      LastWindow(schedule, current, g, ws, windowIdx);
      assert current + rest == current;
    }
    if current != [] && windowIdx < |ws| {
      schedule := schedule + [Entry(windowIdx, current, risk, duration, affected)];
    }
  }
}
