/**
 The greedy schedule against every schedule that keeps constraints 1 to 3
 (backend/services/optimization.py).
 */
module Optimality {
  import opened Sorting
  import opened Scheduler
  import Scoring

  // ---------- tallies ----------

  lemma {:induction false} TallyConcat(s: seq<AssetVuln>, t: seq<AssetVuln>, a: seq<nat>, b: seq<nat>,
                                       f: (AssetVuln, nat) -> int)
    requires |a| == |s| && |b| == |t|
    ensures Tally(s + t, a + b, f) == Tally(s, a, f) + Tally(t, b, f)
  {
    if s == [] {
      assert s + t == t && a + b == b;
    } else {
      TallyConcat(s[1..], t, a[1..], b, f);
      assert (s + t)[1..] == s[1..] + t && (a + b)[1..] == a[1..] + b;
    }
  }

  lemma TallyMiddle(s: seq<AssetVuln>, x: AssetVuln, t: seq<AssetVuln>, a: seq<nat>, w: nat, b: seq<nat>,
                    f: (AssetVuln, nat) -> int)
    requires |a| == |s| && |b| == |t|
    ensures Tally(s + [x] + t, a + [w] + b, f) == f(x, w) + Tally(s + t, a + b, f)
  {
    TallyConcat(s, [x] + t, a, [w] + b, f);
    TallyConcat(s, t, a, b, f);
    assert s + [x] + t == s + ([x] + t) && a + [w] + b == a + ([w] + b);
    assert ([x] + t)[1..] == t && ([w] + b)[1..] == b;
  }

  /** One more window: counts split into the earlier windows and the window itself. */
  lemma {:induction false} CountSplits(items: seq<AssetVuln>, a: seq<nat>, k: nat)
    requires |a| == |items|
    ensures Tally(items, a, Before(k + 1)) == Tally(items, a, Before(k)) + Tally(items, a, InWindow(k))
    ensures 0 <= Tally(items, a, Before(k)) <= |items|
    ensures 0 <= Tally(items, a, InWindow(k))
  {
    if items != [] {
      CountSplits(items[1..], a[1..], k);
    }
  }

  lemma {:induction false} NothingBeforeZero(items: seq<AssetVuln>, a: seq<nat>)
    requires |a| == |items|
    ensures Tally(items, a, Before(0)) == 0
  {
    if items != [] {
      NothingBeforeZero(items[1..], a[1..]);
    }
  }

  /** Counting one more window adds the risk s of an item once, unless the item is scheduled by then. */
  lemma OneMoreWindow(s: int, w: nat, m: nat)
    ensures s * (if w < m + 1 then w else m + 1) == s * (if w < m then w else m) + s - (if w < m + 1 then s else 0)
  {
    if w >= m + 1 {
      assert s * (m + 1) == s * m + s;
    }
  }

  /** Summation by parts: waiting one more window costs all the risk not yet scheduled. */
  lemma {:induction false} RiskTimeStep(items: seq<AssetVuln>, a: seq<nat>, m: nat)
    requires |a| == |items|
    ensures Tally(items, a, RiskTime(m + 1))
            == Tally(items, a, RiskTime(m)) + Risk(items) - Tally(items, a, RiskBefore(m + 1))
  {
    if items != [] {
      RiskTimeStep(items[1..], a[1..], m);
      RiskTimeOfFirst(items[0], a[0], m);
    }
  }

  lemma RiskTimeOfFirst(x: AssetVuln, w: nat, m: nat)
    ensures RiskTime(m + 1)(x, w) == RiskTime(m)(x, w) + Score(x) - RiskBefore(m + 1)(x, w)
  {
    OneMoreWindow(Score(x), w, m);
  }

  lemma {:induction false} RiskTimeZero(items: seq<AssetVuln>, a: seq<nat>)
    requires |a| == |items|
    ensures Tally(items, a, RiskTime(0)) == 0
  {
    if items != [] {
      RiskTimeZero(items[1..], a[1..]);
    }
  }

  // ---------- the most risk any m items carry ----------

  lemma {:induction false} RiskConcat(s: seq<AssetVuln>, t: seq<AssetVuln>)
    ensures Risk(s + t) == Risk(s) + Risk(t)
    ensures 0 <= Risk(s)
  {
    if s == [] {
      assert s + t == t;
    } else {
      RiskConcat(s[1..], t);
      assert (s + t)[1..] == s[1..] + t;
    }
  }

  lemma MoreItemsMoreRisk(s: seq<AssetVuln>, m: nat, n: nat)
    requires m <= n <= |s|
    ensures Risk(s[..m]) <= Risk(s[..n])
  {
    RiskConcat(s[..m], s[m..n]);
    RiskConcat(s[m..n], []);
    assert s[..m] + s[m..n] == s[..n];
  }

  lemma RiskOfCons(x: AssetVuln, s: seq<AssetVuln>)
    ensures Risk([x] + s) == Score(x) + Risk(s)
  {
    assert ([x] + s)[1..] == s;
  }

  /** Exchanging the m-th item for a riskier one. */
  lemma ReplaceLast(x: AssetVuln, s: seq<AssetVuln>, m: nat)
    requires Descending(s, Score) && 0 < m <= |s| && Score(s[0]) <= Score(x)
    ensures Risk(s[..m]) <= Score(x) + Risk(s[..m - 1])
  {
    assert s[..m] == s[..m - 1] + [s[m - 1]];
    RiskAppend(s[..m - 1], s[m - 1]);
  }

  lemma TopWhenFirst(x: AssetVuln, s: seq<AssetVuln>, m: nat)
    requires Descending(s, Score) && m <= |s| && (s == [] || Score(s[0]) <= Score(x))
    ensures Risk(s[..m]) <= Risk(([x] + s)[..m])
    ensures Score(x) + Risk(s[..m]) <= Risk(([x] + s)[..m + 1])
  {
    TakeCons(x, s, m + 1);
    if m > 0 {
      TakeCons(x, s, m);
      ReplaceLast(x, s, m);
    }
  }

  /** Inserting x can only raise the risk of the first m, and makes room for x itself. */
  lemma {:induction false} TopAfterInsert(x: AssetVuln, s: seq<AssetVuln>, m: nat)
    requires Descending(s, Score) && m <= |s|
    ensures Risk(s[..m]) <= Risk(InsertDesc(x, s, Score)[..m])
    ensures Score(x) + Risk(s[..m]) <= Risk(InsertDesc(x, s, Score)[..m + 1])
  {
    if s == [] || Score(s[0]) <= Score(x) {
      TopWhenFirst(x, s, m);
    } else {
      var u, v := InsertDesc(x, s[1..], Score), s[1..];
      assert s == [s[0]] + v;
      TakeCons(s[0], u, m + 1);
      if m > 0 {
        TopAfterInsert(x, v, m - 1);
        TakeCons(s[0], u, m);
        TakeCons(s[0], v, m);
      }
    }
  }

  lemma TakeCons(x: AssetVuln, s: seq<AssetVuln>, n: nat)
    requires 0 < n <= |s| + 1
    ensures Risk(([x] + s)[..n]) == Score(x) + Risk(s[..n - 1])
  {
    assert ([x] + s)[..n] == [x] + s[..n - 1];
    RiskOfCons(x, s[..n - 1]);
  }

  /** The items an assignment puts into windows 0..k-1 carry no more risk than as many items from the top. */
  lemma {:induction false} SelectionBound(items: seq<AssetVuln>, a: seq<nat>, k: nat)
    requires |a| == |items|
    ensures var m := Tally(items, a, Before(k));
            && 0 <= m <= |SortDesc(items, Score)|
            && Tally(items, a, RiskBefore(k)) <= Risk(SortDesc(items, Score)[..m])
  {
    if items != [] {
      SelectionBound(items[1..], a[1..], k);
      SortSorts(items[1..], Score);
      TopAfterInsert(items[0], SortDesc(items[1..], Score), Tally(items[1..], a[1..], Before(k)));
    }
  }

  // ---------- how much fits ----------

  lemma {:induction false} FeasibleLoad(items: seq<AssetVuln>, a: seq<nat>, g: Limits, ws: seq<Window>, k: nat)
    requires Feasible(items, a, g, ws) && k <= |ws|
    ensures Tally(items, a, Before(k)) <= RoomIn(g, ws, 0, k)
  {
    if k == 0 {
      NothingBeforeZero(items, a);
    } else {
      FeasibleLoad(items, a, g, ws, k - 1);
      CountSplits(items, a, k - 1);
      RoomInLast(g, ws, 0, k - 1);
      assert Fits(g, ws[k - 1], Tally(items, a, InWindow(k - 1)));
      FitsIff(g, ws[k - 1], Tally(items, a, InWindow(k - 1)));
    }
  }

  // ---------- the greedy placement of the sorted list ----------

  lemma {:induction false} TallyRepeat(items: seq<AssetVuln>, j: nat, k: nat)
    ensures Tally(items, Repeat(j, |items|), RiskBefore(k)) == if j < k then Risk(items) else 0
  {
    if items != [] {
      TallyRepeat(items[1..], j, k);
    }
  }

  /** The items u that fill window j, followed by those placed from j + 1 on. */
  lemma PlaceSplits(u: seq<AssetVuln>, v: seq<AssetVuln>, g: Limits, ws: seq<Window>, j: nat, f: (AssetVuln, nat) -> int)
    requires j < |ws| && |u| == Min(Room(g, ws, j), |u| + |v|)
    ensures Tally(u + v, Place(|u| + |v|, g, ws, j), f)
            == Tally(u, Repeat(j, |u|), f) + Tally(v, Place(|v|, g, ws, j + 1), f)
  {
    TallyConcat(u, v, Repeat(j, |u|), Place(|v|, g, ws, j + 1), f);
  }

  /** Window j takes u and the rest v follows, for the risk through window k-1. */
  lemma PlacedRiskSplits(u: seq<AssetVuln>, v: seq<AssetVuln>, g: Limits, ws: seq<Window>, j: nat, k: nat)
    requires j < |ws| && j < k && |u| == Min(Room(g, ws, j), |u| + |v|)
    ensures Tally(u + v, Place(|u + v|, g, ws, j), RiskBefore(k))
            == Risk(u) + Tally(v, Place(|v|, g, ws, j + 1), RiskBefore(k))
  {
    assert |u + v| == |u| + |v|;
    var first := Tally(u, Repeat(j, |u|), RiskBefore(k));
    assert first == Risk(u) by { TallyRepeat(u, j, k); }
    PlaceSplits(u, v, g, ws, j, RiskBefore(k));
  }

  /** The risk of the first n items, or of all if there are fewer. */
  function TopRisk(s: seq<AssetVuln>, n: nat): int {
    if s == [] || n == 0 then 0 else Score(s[0]) + TopRisk(s[1..], n - 1)
  }

  lemma {:induction false} TopRiskIsPrefix(s: seq<AssetVuln>, n: nat)
    ensures TopRisk(s, n) == Risk(s[..Min(|s|, n)])
  {
    if s != [] && n > 0 {
      TopRiskIsPrefix(s[1..], n - 1);
      assert s[..Min(|s|, n)][1..] == s[1..][..Min(|s| - 1, n - 1)];
    }
  }

  lemma {:induction false} TopRiskSplits(u: seq<AssetVuln>, v: seq<AssetVuln>, room: nat, more: nat, n: nat)
    requires |u| == Min(room, |u| + |v|) && n == room + more
    ensures TopRisk(u + v, n) == Risk(u) + TopRisk(v, more)
  {
    if u == [] {
      assert u + v == v;
    } else {
      TopRiskSplits(u[1..], v, room - 1, more, n - 1);
      assert (u + v)[1..] == u[1..] + v;
    }
  }

  lemma PlacedRiskStep(u: seq<AssetVuln>, v: seq<AssetVuln>, g: Limits, ws: seq<Window>, j: nat, k: nat)
    requires j < |ws| && j < k <= |ws| && |u| == Min(Room(g, ws, j), |u| + |v|)
    requires Tally(v, Place(|v|, g, ws, j + 1), RiskBefore(k)) == TopRisk(v, RoomIn(g, ws, j + 1, k))
    ensures Tally(u + v, Place(|u + v|, g, ws, j), RiskBefore(k)) == TopRisk(u + v, RoomIn(g, ws, j, k))
  {
    PlacedRiskSplits(u, v, g, ws, j, k);
    TopRiskSplits(u, v, Room(g, ws, j), RoomIn(g, ws, j + 1, k), RoomIn(g, ws, j, k));
  }

  /** Through window k-1 the greedy placement has used up the top of the list, as far as there is room. */
  lemma {:induction false} PlacedRisk(s: seq<AssetVuln>, g: Limits, ws: seq<Window>, j: nat, k: nat)
    requires j <= k <= |ws|
    ensures Tally(s, Place(|s|, g, ws, j), RiskBefore(k)) == TopRisk(s, RoomIn(g, ws, j, k))
    decreases |ws| - j
  {
    if j == k {
      NotBefore(s, Place(|s|, g, ws, j), k);
    } else {
      var t := Min(Room(g, ws, j), |s|);
      var u, v := s[..t], s[t..];
      assert s == u + v;
      PlacedRisk(v, g, ws, j + 1, k);
      PlacedRiskStep(u, v, g, ws, j, k);
    }
  }

  lemma {:induction false} NotBefore(s: seq<AssetVuln>, a: seq<nat>, k: nat)
    requires |a| == |s| && forall i :: 0 <= i < |a| ==> k <= a[i]
    ensures Tally(s, a, RiskBefore(k)) == 0
  {
    if s != [] {
      NotBefore(s[1..], a[1..], k);
    }
  }

  /** Position p of the sorted list goes to window w exactly when the room before w ends at or before p and the room through w after it. */
  lemma {:induction false} PlaceAt(n: nat, g: Limits, ws: seq<Window>, j: nat, w: nat, p: nat)
    requires j <= w < |ws| && p < n
    ensures Place(n, g, ws, j)[p] == w <==> RoomIn(g, ws, j, w) <= p < RoomIn(g, ws, j, w + 1)
    decreases |ws| - j
  {
    var t := Min(Room(g, ws, j), n);
    if p >= t {
      if w > j {
        PlaceAt(n - t, g, ws, j + 1, w, p - t);
      } else {
        assert Place(n, g, ws, j)[p] == Place(n - t, g, ws, j + 1)[p - t];
      }
    }
  }

  lemma {:induction false} PlaceIsMonotone(n: nat, g: Limits, ws: seq<Window>, j: nat, p: nat, q: nat)
    requires j <= |ws| && p <= q < n
    ensures Place(n, g, ws, j)[p] <= Place(n, g, ws, j)[q]
    decreases |ws| - j
  {
    if j < |ws| {
      var t := Min(Room(g, ws, j), n);
      if t <= p {
        PlaceIsMonotone(n - t, g, ws, j + 1, p - t, q - t);
      }
    }
  }

  /** How many of the n positions window w receives. */
  function Share(n: nat, g: Limits, ws: seq<Window>, j: nat, w: nat): nat
    requires j <= w < |ws|
  {
    if n <= RoomIn(g, ws, j, w) then 0 else Min(Room(g, ws, w), n - RoomIn(g, ws, j, w))
  }

  /** Setting aside what window j takes does not change the share of a later window. */
  lemma ShareShifts(n: nat, g: Limits, ws: seq<Window>, j: nat, w: nat)
    requires j < w < |ws|
    ensures Share(n, g, ws, j, w) == Share(n - Min(Room(g, ws, j), n), g, ws, j + 1, w)
  {
  }

  lemma {:induction false} CountRepeat(items: seq<AssetVuln>, j: nat, w: nat)
    ensures Tally(items, Repeat(j, |items|), InWindow(w)) == if j == w then |items| else 0
  {
    if items != [] {
      CountRepeat(items[1..], j, w);
    }
  }

  lemma {:induction false} NotIn(s: seq<AssetVuln>, a: seq<nat>, w: nat)
    requires |a| == |s| && forall i :: 0 <= i < |a| ==> w < a[i]
    ensures Tally(s, a, InWindow(w)) == 0
  {
    if s != [] {
      NotIn(s[1..], a[1..], w);
    }
  }

  /** Window j takes u and the rest v follows, for the count of window w. */
  lemma PlacedShareSplits(u: seq<AssetVuln>, v: seq<AssetVuln>, g: Limits, ws: seq<Window>, j: nat, w: nat)
    requires j < |ws| && j <= w && |u| == Min(Room(g, ws, j), |u| + |v|)
    ensures Tally(u + v, Place(|u + v|, g, ws, j), InWindow(w))
            == if j == w then |u| else Tally(v, Place(|v|, g, ws, j + 1), InWindow(w))
  {
    assert |u + v| == |u| + |v|;
    var first, later := Tally(u, Repeat(j, |u|), InWindow(w)), Tally(v, Place(|v|, g, ws, j + 1), InWindow(w));
    assert first == if j == w then |u| else 0 by {
      CountRepeat(u, j, w);
    }
    assert j == w ==> later == 0 by {
      if j == w {
        NotIn(v, Place(|v|, g, ws, j + 1), w);
      }
    }
    PlaceSplits(u, v, g, ws, j, InWindow(w));
  }

  /** Window w receives what is left for it, up to its Room. */
  lemma {:induction false} PlacedShare(s: seq<AssetVuln>, g: Limits, ws: seq<Window>, j: nat, w: nat)
    requires j <= w < |ws|
    ensures Tally(s, Place(|s|, g, ws, j), InWindow(w)) == Share(|s|, g, ws, j, w)
    decreases |ws| - j
  {
    var t := Min(Room(g, ws, j), |s|);
    var u, v := s[..t], s[t..];
    assert s == u + v;
    PlacedShareSplits(u, v, g, ws, j, w);
    if j < w {
      PlacedShare(v, g, ws, j + 1, w);
      ShareShifts(|s|, g, ws, j, w);
    }
  }

  // ---------- back to the order of the input ----------

  /** Where InsertDesc puts x. */
  function InsertAt(x: AssetVuln, s: seq<AssetVuln>): (q: nat)
    ensures q <= |s|
  {
    if s == [] || Score(s[0]) <= Score(x) then 0 else 1 + InsertAt(x, s[1..])
  }

  lemma {:induction false} InsertSplits(x: AssetVuln, s: seq<AssetVuln>)
    ensures InsertDesc(x, s, Score) == s[..InsertAt(x, s)] + [x] + s[InsertAt(x, s)..]
  {
    if s != [] && Score(x) < Score(s[0]) {
      InsertSplits(x, s[1..]);
      assert s == [s[0]] + s[1..];
    }
  }

  /** Turns a placement of the sorted list into an assignment of the list as given. */
  function Unsort(items: seq<AssetVuln>, b: seq<nat>): (a: seq<nat>)
    requires |b| == |items|
    ensures |a| == |items|
  {
    if items == [] then [] else
      SortSorts(items[1..], Score);
      var q := InsertAt(items[0], SortDesc(items[1..], Score));
      [b[q]] + Unsort(items[1..], b[..q] + b[q + 1..])
  }

  lemma TakeOut(x: AssetVuln, s: seq<AssetVuln>, q: nat, b: seq<nat>, f: (AssetVuln, nat) -> int)
    requires q <= |s| && |b| == |s| + 1
    ensures Tally(s[..q] + [x] + s[q..], b, f) == f(x, b[q]) + Tally(s, b[..q] + b[q + 1..], f)
  {
    TallyMiddle(s[..q], x, s[q..], b[..q], b[q], b[q + 1..], f);
    assert b == b[..q] + [b[q]] + b[q + 1..] && s == s[..q] + s[q..];
  }

  /** Every item keeps the window its place in the sorted list has, so all tallies agree. */
  lemma {:induction false} UnsortTally(items: seq<AssetVuln>, b: seq<nat>, f: (AssetVuln, nat) -> int)
    requires |b| == |items|
    ensures Tally(items, Unsort(items, b), f) == Tally(SortDesc(items, Score), b, f)
  {
    SortSorts(items, Score);
    if items != [] {
      SortSorts(items[1..], Score);
      var x, s := items[0], SortDesc(items[1..], Score);
      var q := InsertAt(x, s);
      var c := b[..q] + b[q + 1..];
      UnsortTally(items[1..], c, f);
      InsertSplits(x, s);
      TakeOut(x, s, q, b, f);
      var u := Unsort(items, b);
      assert u[0] == b[q] && u[1..] == Unsort(items[1..], c);
    }
  }

  /** Positions on either side of the one that is taken out. */
  lemma PutBackAt(x: AssetVuln, s: seq<AssetVuln>, q: nat, b: seq<nat>, p: nat) returns (p': nat)
    requires q <= |s| && |b| == |s| + 1 && p < |s|
    ensures p' < |b|
    ensures (s[..q] + [x] + s[q..])[p'] == s[p] && b[p'] == (b[..q] + b[q + 1..])[p]
  {
    p' := if p < q then p else p + 1;
  }

  /** The place in the sorted list that item i came from. */
  lemma {:induction false} UnsortAt(items: seq<AssetVuln>, b: seq<nat>, i: nat) returns (p: nat)
    requires |b| == |items| && i < |items|
    ensures p < |items|
    ensures SortDesc(items, Score)[p] == items[i] && Unsort(items, b)[i] == b[p]
  {
    var x, s := items[0], SortDesc(items[1..], Score);
    var q := InsertAt(x, s);
    InsertSplits(x, s);
    if i == 0 {
      p := q;
    } else {
      p := UnsortAt(items[1..], b[..q] + b[q + 1..], i - 1);
      assert Unsort(items, b)[i] == Unsort(items[1..], b[..q] + b[q + 1..])[i - 1];
      p := PutBackAt(x, s, q, b, p);
    }
  }

  /** The greedy schedule as an assignment of the items as given. */
  function Greedy(items: seq<AssetVuln>, g: Limits, ws: seq<Window>): (a: seq<nat>)
    ensures |a| == |items|
  {
    Unsort(items, Place(|items|, g, ws, 0))
  }

  // ---------- the theorems ----------

  lemma GreedyIsAssignment(items: seq<AssetVuln>, g: Limits, ws: seq<Window>)
    ensures IsAssignment(Greedy(items, g, ws), |items|, ws)
  {
    forall i | 0 <= i < |items| ensures Greedy(items, g, ws)[i] <= |ws| {
      var p := UnsortAt(items, Place(|items|, g, ws, 0), i);
    }
  }

  /** Whatever satisfies the constraints has scheduled no more risk by the end of any window. */
  lemma PrefixDominance(items: seq<AssetVuln>, a: seq<nat>, g: Limits, ws: seq<Window>, k: nat)
    requires Feasible(items, a, g, ws) && k <= |ws|
    ensures Tally(items, a, RiskBefore(k)) <= Tally(items, Greedy(items, g, ws), RiskBefore(k))
  {
    SortSorts(items, Score);
    var s := SortDesc(items, Score);
    UnsortTally(items, Place(|items|, g, ws, 0), RiskBefore(k));
    PlacedRisk(s, g, ws, 0, k);
    TopRiskIsPrefix(s, RoomIn(g, ws, 0, k));
    SelectionBound(items, a, k);
    FeasibleLoad(items, a, g, ws, k);
    MoreItemsMoreRisk(s, Tally(items, a, Before(k)), Min(|s|, RoomIn(g, ws, 0, k)));
  }

  /** The greedy schedule minimises total risk-time over all schedules that satisfy the constraints. */
  lemma MinimalRiskTime(items: seq<AssetVuln>, a: seq<nat>, g: Limits, ws: seq<Window>)
    requires Feasible(items, a, g, ws)
    ensures Tally(items, Greedy(items, g, ws), RiskTime(|ws|)) <= Tally(items, a, RiskTime(|ws|))
  {
    RiskTimeZero(items, a);
    RiskTimeZero(items, Greedy(items, g, ws));
    for m := 0 to |ws|
      invariant Tally(items, Greedy(items, g, ws), RiskTime(m)) <= Tally(items, a, RiskTime(m))
    {
      RiskTimeStep(items, a, m);
      RiskTimeStep(items, Greedy(items, g, ws), m);
      PrefixDominance(items, a, g, ws, m + 1);
    }
  }

  /**
   The greedy schedule itself satisfies the constraints exactly when the limits admit an empty
   schedule and no window after the first that can hold nothing is reached by any item.
   */
  lemma GreedyIsFeasibleIff(items: seq<AssetVuln>, g: Limits, ws: seq<Window>)
    ensures Feasible(items, Greedy(items, g, ws), g, ws)
       <==> (forall j :: 0 <= j < |ws| ==>
               && g.maxVulns >= 0
               && Limit(g, ws[j]) > -36
               && (j > 0 && Capacity(g, ws[j]) == 0 ==> |items| <= RoomIn(g, ws, 0, j)))
  {
    GreedyIsAssignment(items, g, ws);
    SortSorts(items, Score);
    forall j | 0 <= j < |ws|
      ensures Fits(g, ws[j], Tally(items, Greedy(items, g, ws), InWindow(j)))
         <==> (&& g.maxVulns >= 0
               && Limit(g, ws[j]) > -36
               && (j > 0 && Capacity(g, ws[j]) == 0 ==> |items| <= RoomIn(g, ws, 0, j)))
    {
      UnsortTally(items, Place(|items|, g, ws, 0), InWindow(j));
      PlacedShare(SortDesc(items, Score), g, ws, 0, j);
      FitsIff(g, ws[j], Share(|items|, g, ws, 0, j));
    }
  }

  /** A ten-minute second window still receives a half-hour item when the first window is full. */
  lemma ShortWindowIsOverfilled(av: AssetVuln)
    ensures var g := Limits(1, 3600);
            var ws := [Window(0, 0, 3600), Window(1, 7200, 7800)];
            && !Feasible([av, av], Greedy([av, av], g, ws), g, ws)
            && Feasible([av, av], [0, 2], g, ws)
  {
    var g := Limits(1, 3600);
    var ws := [Window(0, 0, 3600), Window(1, 7200, 7800)];
    SecondIsOverfilled([av, av], g, ws);
    OneLeftOutFits(av, g, ws);
  }

  /** Whatever does not fit the first of two windows overfills the second if that can hold nothing. */
  lemma SecondIsOverfilled(items: seq<AssetVuln>, g: Limits, ws: seq<Window>)
    requires |ws| == 2 && Capacity(g, ws[0]) < |items| && Capacity(g, ws[1]) == 0
    ensures !Feasible(items, Greedy(items, g, ws), g, ws)
  {
    GreedyIsFeasibleIff(items, g, ws);
    assert RoomIn(g, ws, 0, 1) == Room(g, ws, 0) + RoomIn(g, ws, 1, 1);
  }

  lemma OneLeftOutFits(av: AssetVuln, g: Limits, ws: seq<Window>)
    requires |ws| == 2 && Fits(g, ws[0], 1) && Fits(g, ws[1], 0)
    ensures Feasible([av, av], [0, 2], g, ws)
  {
    forall j | 0 <= j < |ws| ensures Fits(g, ws[j], Tally([av, av], [0, 2], InWindow(j))) {
      TallyOfTwo(av, 0, 2, j);
    }
  }

  lemma TallyOfTwo(av: AssetVuln, v: nat, w: nat, j: nat)
    ensures Tally([av, av], [v, w], InWindow(j)) == (if v == j then 1 else 0) + if w == j then 1 else 0
  {
    assert [av, av][1..] == [av] && [v, w][1..] == [w];
    assert Tally([av], [w], InWindow(j)) == InWindow(j)(av, w) + Tally([], [], InWindow(j));
  }

  /** A riskier item is never scheduled later, and is scheduled whenever a less risky one is. */
  lemma RiskierFirst(items: seq<AssetVuln>, g: Limits, ws: seq<Window>, i: nat, j: nat)
    requires i < |items| && j < |items| && Score(items[j]) < Score(items[i])
    ensures Greedy(items, g, ws)[i] <= Greedy(items, g, ws)[j]
  {
    var b := Place(|items|, g, ws, 0);
    var p := UnsortAt(items, b, i);
    var q := UnsortAt(items, b, j);
    SortSorts(items, Score);
    PlaceIsMonotone(|items|, g, ws, 0, p, if p <= q then q else p);
  }

  /** Every CRITICAL item comes no later than any HIGH one. */
  lemma CriticalBeforeHigh(items: seq<AssetVuln>, g: Limits, ws: seq<Window>, i: nat, j: nat)
    requires i < |items| && j < |items|
    requires Scoring.RiskLevel(Score(items[i])) == Scoring.CRITICAL
    requires Scoring.RiskLevel(Score(items[j])) == Scoring.HIGH
    ensures Greedy(items, g, ws)[i] <= Greedy(items, g, ws)[j]
  {
    RiskierFirst(items, g, ws, i, j);
  }

  // ---------- the schedule the loop returns is that assignment ----------

  function Flatten(schedule: seq<Entry>): seq<AssetVuln> {
    if schedule == [] then [] else schedule[0].vulns + Flatten(schedule[1..])
  }

  lemma PackSplits(u: seq<AssetVuln>, v: seq<AssetVuln>, g: Limits, ws: seq<Window>, j: nat)
    requires j < |ws| && |u| == Min(Room(g, ws, j), |u| + |v|)
    ensures Pack(u + v, g, ws, j) == (if u == [] then [] else [EntryOf(j, u)]) + Pack(v, g, ws, j + 1)
  {
    assert (u + v)[..|u|] == u && (u + v)[|u|..] == v;
  }

  /** The entry of window w holds the slice of the sorted list s that starts at the room before w. */
  ghost predicate EntryIs(en: Entry, s: seq<AssetVuln>, g: Limits, ws: seq<Window>, j: nat)
    requires j <= |ws|
  {
    && j <= en.window < |ws|
    && var lo, n := RoomIn(g, ws, j, en.window), Share(|s|, g, ws, j, en.window);
       n > 0 && lo + n <= |s| && en == EntryOf(en.window, s[lo..lo + n])
  }

  lemma EntryShifts(en: Entry, u: seq<AssetVuln>, v: seq<AssetVuln>, g: Limits, ws: seq<Window>, j: nat)
    requires j < |ws| && |u| == Min(Room(g, ws, j), |u| + |v|)
    requires EntryIs(en, v, g, ws, j + 1)
    ensures EntryIs(en, u + v, g, ws, j)
  {
    var lo, n := RoomIn(g, ws, j + 1, en.window), Share(|v|, g, ws, j + 1, en.window);
    ShareShifts(|u| + |v|, g, ws, j, en.window);
    SliceShifts(u, v, lo, n);
  }

  lemma SliceShifts(u: seq<AssetVuln>, v: seq<AssetVuln>, lo: nat, n: nat)
    requires lo + n <= |v|
    ensures (u + v)[|u| + lo..|u| + lo + n] == v[lo..lo + n]
  {
  }

  lemma EntryHere(u: seq<AssetVuln>, v: seq<AssetVuln>, g: Limits, ws: seq<Window>, j: nat)
    requires j < |ws| && |u| == Min(Room(g, ws, j), |u| + |v|) && u != []
    ensures EntryIs(EntryOf(j, u), u + v, g, ws, j)
  {
    assert (u + v)[0..|u|] == u;
  }

  /** Entry e of the schedule of u and v, u being what window j takes. */
  ghost predicate EntriesFit(schedule: seq<Entry>, s: seq<AssetVuln>, g: Limits, ws: seq<Window>, j: nat, e: nat)
    requires j <= |ws|
  {
    e < |schedule| ==> EntryIs(schedule[e], s, g, ws, j) && (e > 0 ==> schedule[e - 1].window < schedule[e].window)
  }

  ghost predicate AllFit(schedule: seq<Entry>, s: seq<AssetVuln>, g: Limits, ws: seq<Window>, j: nat)
    requires j <= |ws|
  {
    forall e: nat :: EntriesFit(schedule, s, g, ws, j, e)
  }

  lemma EntriesShift(u: seq<AssetVuln>, v: seq<AssetVuln>, later: seq<Entry>, g: Limits, ws: seq<Window>, j: nat, e: nat)
    requires j < |ws| && |u| == Min(Room(g, ws, j), |u| + |v|)
    requires e < |later| && EntriesFit(later, v, g, ws, j + 1, e)
    ensures EntriesFit((if u == [] then [] else [EntryOf(j, u)]) + later, u + v, g, ws, j, if u == [] then e else e + 1)
  {
    EntryShifts(later[e], u, v, g, ws, j);
  }

  /** The entry of window j, if it takes anything, goes in front of the later ones. */
  lemma EntriesPrepend(u: seq<AssetVuln>, v: seq<AssetVuln>, later: seq<Entry>, g: Limits, ws: seq<Window>, j: nat, e: nat)
    requires j < |ws| && |u| == Min(Room(g, ws, j), |u| + |v|)
    requires AllFit(later, v, g, ws, j + 1)
    ensures EntriesFit((if u == [] then [] else [EntryOf(j, u)]) + later, u + v, g, ws, j, e)
  {
    if u == [] {
      if e < |later| {
        assert EntriesFit(later, v, g, ws, j + 1, e);
        EntriesShift(u, v, later, g, ws, j, e);
      }
    } else if e == 0 {
      EntryHere(u, v, g, ws, j);
    } else if e - 1 < |later| {
      assert EntriesFit(later, v, g, ws, j + 1, e - 1);
      EntriesShift(u, v, later, g, ws, j, e - 1);
    }
  }

  lemma {:induction false} PackFits(s: seq<AssetVuln>, g: Limits, ws: seq<Window>, j: nat)
    requires j <= |ws|
    ensures AllFit(Pack(s, g, ws, j), s, g, ws, j)
    decreases |ws| - j
  {
    if j < |ws| {
      var t := Min(Room(g, ws, j), |s|);
      var u, v := s[..t], s[t..];
      assert s == u + v;
      PackSplits(u, v, g, ws, j);
      PackFits(v, g, ws, j + 1);
      var later := Pack(v, g, ws, j + 1);
      var all := (if u == [] then [] else [EntryOf(j, u)]) + later;
      forall e: nat ensures EntriesFit(all, s, g, ws, j, e) {
        EntriesPrepend(u, v, later, g, ws, j, e);
      }
    }
  }

  /** Every entry of the schedule is of that form, and windows strictly increase. */
  lemma PackEntries(s: seq<AssetVuln>, g: Limits, ws: seq<Window>, j: nat, e: nat)
    requires j <= |ws| && e < |Pack(s, g, ws, j)|
    ensures EntryIs(Pack(s, g, ws, j)[e], s, g, ws, j)
    ensures e > 0 ==> Pack(s, g, ws, j)[e - 1].window < Pack(s, g, ws, j)[e].window
  {
    PackFits(s, g, ws, j);
    assert EntriesFit(Pack(s, g, ws, j), s, g, ws, j, e);
  }

  /** A window that receives anything has an entry. */
  lemma {:induction false} PackCovers(s: seq<AssetVuln>, g: Limits, ws: seq<Window>, j: nat, w: nat) returns (e: nat)
    requires j <= w < |ws| && Share(|s|, g, ws, j, w) > 0
    ensures e < |Pack(s, g, ws, j)| && Pack(s, g, ws, j)[e].window == w
    decreases |ws| - j
  {
    var t := Min(Room(g, ws, j), |s|);
    if w == j {
      e := 0;
    } else {
      e := PackCovers(s[t..], g, ws, j + 1, w);
      e := if t == 0 then e else e + 1;
    }
  }

  /** All entries together are the top of the sorted list: nothing twice, nothing skipped. */
  lemma {:induction false} PackFlattens(s: seq<AssetVuln>, g: Limits, ws: seq<Window>, j: nat)
    requires j <= |ws|
    ensures Flatten(Pack(s, g, ws, j)) == s[..Min(|s|, RoomIn(g, ws, j, |ws|))]
    decreases |ws| - j
  {
    if j < |ws| {
      var t := Min(Room(g, ws, j), |s|);
      var u, v := s[..t], s[t..];
      assert s == u + v;
      PackSplits(u, v, g, ws, j);
      PackFlattens(v, g, ws, j + 1);
      FlattenCons(if u == [] then [] else [EntryOf(j, u)], Pack(v, g, ws, j + 1));
      assert u + v[..Min(|v|, RoomIn(g, ws, j + 1, |ws|))] == s[..Min(|s|, RoomIn(g, ws, j, |ws|))];
    }
  }

  lemma FlattenCons(head: seq<Entry>, rest: seq<Entry>)
    requires |head| <= 1
    ensures Flatten(head + rest) == (if head == [] then [] else head[0].vulns) + Flatten(rest)
  {
    if head == [] {
      assert head + rest == rest;
    } else {
      assert (head + rest)[1..] == rest;
    }
  }

  /** The entry of a window counts exactly the items the greedy assignment sends there; a window without entry gets none. */
  lemma ScheduleIsGreedy(items: seq<AssetVuln>, g: Limits, ws: seq<Window>, w: nat)
    requires w < |ws|
    ensures var schedule := Pack(SortDesc(items, Score), g, ws, 0);
            var load := Tally(items, Greedy(items, g, ws), InWindow(w));
            && (load > 0 <==> exists e :: 0 <= e < |schedule| && schedule[e].window == w)
            && forall e :: 0 <= e < |schedule| && schedule[e].window == w ==> |schedule[e].vulns| == load
  {
    var s := SortDesc(items, Score);
    var schedule := Pack(s, g, ws, 0);
    SortSorts(items, Score);
    UnsortTally(items, Place(|items|, g, ws, 0), InWindow(w));
    PlacedShare(s, g, ws, 0, w);
    if Share(|s|, g, ws, 0, w) > 0 {
      var e := PackCovers(s, g, ws, 0, w);
    }
    forall e | 0 <= e < |schedule| && schedule[e].window == w
      ensures |schedule[e].vulns| == Share(|s|, g, ws, 0, w) > 0
    {
      PackEntries(s, g, ws, 0, e);
    }
  }

  // ---------- the schedule against the goal's limits ----------

  /** The findings the schedule puts into window j. */
  function LoadOf(schedule: seq<Entry>, j: nat): nat {
    if schedule == [] then 0 else (if schedule[0].window == j then |schedule[0].vulns| else 0) + LoadOf(schedule[1..], j)
  }

  lemma LoadOfCons(u: seq<AssetVuln>, rest: seq<Entry>, j: nat, w: nat)
    ensures LoadOf((if u == [] then [] else [EntryOf(j, u)]) + rest, w) == (if w == j then |u| else 0) + LoadOf(rest, w)
  {
    if u == [] {
      assert [] + rest == rest;
    } else {
      assert ([EntryOf(j, u)] + rest)[1..] == rest;
    }
  }

  lemma {:induction false} NoLoadBefore(s: seq<AssetVuln>, g: Limits, ws: seq<Window>, j: nat, w: nat)
    requires w < j <= |ws|
    ensures LoadOf(Pack(s, g, ws, j), w) == 0
    decreases |ws| - j
  {
    if j < |ws| {
      var t := Min(Room(g, ws, j), |s|);
      var u, v := s[..t], s[t..];
      assert s == u + v;
      PackSplits(u, v, g, ws, j);
      NoLoadBefore(v, g, ws, j + 1, w);
      LoadOfCons(u, Pack(v, g, ws, j + 1), j, w);
    }
  }

  /** The schedule loads each window with its share of the items. */
  lemma {:induction false} LoadIsShare(s: seq<AssetVuln>, g: Limits, ws: seq<Window>, j: nat, w: nat)
    requires j <= w < |ws|
    ensures LoadOf(Pack(s, g, ws, j), w) == Share(|s|, g, ws, j, w)
    decreases |ws| - j
  {
    var t := Min(Room(g, ws, j), |s|);
    var u, v := s[..t], s[t..];
    assert s == u + v;
    PackSplits(u, v, g, ws, j);
    LoadOfCons(u, Pack(v, g, ws, j + 1), j, w);
    if w == j {
      NoLoadBefore(v, g, ws, j + 1, w);
    } else {
      LoadIsShare(v, g, ws, j + 1, w);
      ShareShifts(|s|, g, ws, j, w);
    }
  }

  /** The load stays within the number of patches, the downtime and the window's length. */
  predicate WithinLimits(g: Limits, w: Window, load: nat) {
    load <= g.maxVulns && 1800 * load <= g.maxDowntime && 1800 * load <= w.end - w.start
  }

  /**
   Every window of the schedule keeps all three limits of the goal, unless it holds a single item; and a
   window behind which anything is left, scheduled later or not at all, could not take one more.
   */
  lemma WindowsAreFullButNotOver(items: seq<AssetVuln>, g: Limits, ws: seq<Window>, j: nat)
    requires j < |ws|
    ensures var schedule := Pack(SortDesc(items, Score), g, ws, 0);
            && (LoadOf(schedule, j) > 1 ==> WithinLimits(g, ws[j], LoadOf(schedule, j)))
            && (j == 0 && LoadOf(schedule, j) > 0 ==> WithinLimits(g, ws[j], LoadOf(schedule, j)))
            && ((exists e :: 0 <= e < |schedule| && schedule[e].window > j) || |Flatten(schedule)| < |items| ==>
                  !WithinLimits(g, ws[j], LoadOf(schedule, j) + 1))
  {
    var s := SortDesc(items, Score);
    var schedule := Pack(s, g, ws, 0);
    var load := LoadOf(schedule, j);
    LoadIsShare(s, g, ws, 0, j);
    if load > 0 {
      CapacityMeans(g, ws[j], load);
    }
    CapacityMeans(g, ws[j], load + 1);
    if e :| 0 <= e < |schedule| && schedule[e].window > j {
      PackEntries(s, g, ws, 0, e);
      RoomInMonotone(g, ws, j + 1, schedule[e].window);
    }
    PackFlattens(s, g, ws, 0);
    RoomInMonotone(g, ws, j + 1, |ws|);
    RoomInLast(g, ws, 0, j);
  }

  lemma {:induction false} RoomInMonotone(g: Limits, ws: seq<Window>, k: nat, m: nat)
    requires k <= m <= |ws|
    ensures RoomIn(g, ws, 0, k) <= RoomIn(g, ws, 0, m)
    decreases m - k
  {
    if k < m {
      RoomInLast(g, ws, 0, k);
      RoomInMonotone(g, ws, k + 1, m);
    }
  }

  /** Each entry takes half an hour an item, and its counts are those of its window. */
  lemma EntriesOfSchedule(items: seq<AssetVuln>, g: Limits, ws: seq<Window>, e: nat)
    requires e < |Pack(SortDesc(items, Score), g, ws, 0)|
    ensures var schedule := Pack(SortDesc(items, Score), g, ws, 0);
            var en := schedule[e];
            && en.window < |ws| && en.duration == 1800 * |en.vulns| && |en.vulns| == LoadOf(schedule, en.window) > 0
            && en.risk == Risk(en.vulns) && en.assets == set i | 0 <= i < |en.vulns| :: en.vulns[i].asset.id
  {
    var s := SortDesc(items, Score);
    var en := Pack(s, g, ws, 0)[e];
    PackEntries(s, g, ws, 0, e);
    LoadIsShare(s, g, ws, 0, en.window);
    AssetsAreIds(en.vulns);
  }

  lemma {:induction false} AssetsAreIds(items: seq<AssetVuln>)
    ensures AssetsOf(items) == set i | 0 <= i < |items| :: items[i].asset.id
  {
    if items != [] {
      var rest := items[1..];
      AssetsAreIds(rest);
      assert forall i :: 0 <= i < |rest| ==> rest[i] == items[i + 1];
      forall x | x in AssetsOf(items) ensures exists i :: 0 <= i < |items| && items[i].asset.id == x {
        if x == items[0].asset.id {
          assert items[0].asset.id == x;
        } else {
          var i :| 0 <= i < |rest| && rest[i].asset.id == x;
          assert items[i + 1].asset.id == x;
        }
      }
      forall i | 0 <= i < |items| ensures items[i].asset.id in AssetsOf(items) {
        if i > 0 {
          assert rest[i - 1].asset.id in AssetsOf(rest);
        }
      }
    }
  }
}
