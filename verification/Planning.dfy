/** From scored findings to bundles (backend/services/optimization.py): optimize_goal around the heuristic. */
module Planning {
  import opened Results
  import opened Sorting
  import opened Scheduler
  import opened Optimality
  import Scoring

  const DAY := 86_400
  const WEEK := 604_800

  datatype BundleItem = BundleItem(vulnerability: int, asset: int, risk: int)

  datatype Bundle = Bundle(window: Window, risk: int, minutes: int, approvalRequired: bool, items: seq<BundleItem>)

  datatype Plan = Plan(scheduled: nat, bundlesCreated: nat, completion: Option<int>, riskReduction: int)

  function ItemOf(av: AssetVuln): BundleItem {
    BundleItem(av.vulnerability.id, av.asset.id, Score(av))
  }

  function ItemsOf(avs: seq<AssetVuln>): seq<BundleItem> {
    if avs == [] then [] else [ItemOf(avs[0])] + ItemsOf(avs[1..])
  }

  function BundleOf(en: Entry, ws: seq<Window>): Bundle
    requires en.window < |ws|
  {
    Bundle(ws[en.window], en.risk, en.duration / 60, |en.assets| > 5, ItemsOf(en.vulns))
  }

  function AllItems(bundles: seq<Bundle>): seq<BundleItem> {
    if bundles == [] then [] else bundles[0].items + AllItems(bundles[1..])
  }

  lemma {:induction false} ItemsOfConcat(s: seq<AssetVuln>, t: seq<AssetVuln>)
    ensures ItemsOf(s + t) == ItemsOf(s) + ItemsOf(t)
  {
    if s == [] {
      assert s + t == t;
    } else {
      ItemsOfConcat(s[1..], t);
      assert (s + t)[0] == s[0] && (s + t)[1..] == s[1..] + t;
      var head := [ItemOf(s[0])];
      assert head + (ItemsOf(s[1..]) + ItemsOf(t)) == (head + ItemsOf(s[1..])) + ItemsOf(t);
    }
  }

  lemma {:induction false} FlattenAppend(schedule: seq<Entry>, en: Entry)
    ensures Flatten(schedule + [en]) == Flatten(schedule) + en.vulns
  {
    if schedule != [] {
      FlattenAppend(schedule[1..], en);
      assert (schedule + [en])[1..] == schedule[1..] + [en];
    }
  }

  lemma {:induction false} AllItemsAppend(bundles: seq<Bundle>, b: Bundle)
    ensures AllItems(bundles + [b]) == AllItems(bundles) + b.items
  {
    if bundles != [] {
      AllItemsAppend(bundles[1..], b);
      assert (bundles + [b])[1..] == bundles[1..] + [b];
    }
  }

  lemma {:induction false} ItemsOfLength(avs: seq<AssetVuln>)
    ensures |ItemsOf(avs)| == |avs|
  {
    if avs != [] {
      ItemsOfLength(avs[1..]);
    }
  }

  /** One bundle row with one item row per finding, in order, naming its vulnerability, asset and score. */
  method CreateBundle(en: Entry, ws: seq<Window>) returns (b: Bundle)
    requires en.window < |ws|
    ensures b == BundleOf(en, ws)
    ensures b.window == ws[en.window] && b.risk == en.risk && b.approvalRequired == (|en.assets| > 5)
    ensures 60 * b.minutes <= en.duration < 60 * b.minutes + 60
    ensures |b.items| == |en.vulns| && forall i :: 0 <= i < |en.vulns| ==>
              b.items[i] == BundleItem(en.vulns[i].vulnerability.id, en.vulns[i].asset.id,
                                       Scoring.OptimizerScore(en.vulns[i].vulnerability, en.vulns[i].asset, en.vulns[i].runtime))
  {
    var items := [];
    for i := 0 to |en.vulns|
      invariant items == ItemsOf(en.vulns[..i])
    {
      ItemsOfConcat(en.vulns[..i], [en.vulns[i]]);
      assert en.vulns[..i + 1] == en.vulns[..i] + [en.vulns[i]];
      items := items + [ItemOf(en.vulns[i])];
    }
    assert en.vulns[..|en.vulns|] == en.vulns;
    forall i | 0 <= i < |en.vulns| ensures |items| == |en.vulns| && items[i] == ItemOf(en.vulns[i]) {
      ItemsOfAt(en.vulns, i);
    }
    ItemsOfLength(en.vulns);
    b := Bundle(ws[en.window], en.risk, en.duration / 60, |en.assets| > 5, items);
  }

  // ---------- default windows ----------

  /** Monday is 0 and Sunday 6; second 0 falls on a Thursday. */
  function Weekday(t: int): int {
    (t / DAY + 3) % 7
  }

  /** The first window: two o'clock on the first Sunday not before the day of the start. */
  function FirstSunday(start: int): int {
    (start / DAY + (6 - Weekday(start))) * DAY + 7200
  }

  /** Weekly four-hour windows from the first Sunday on. */
  function DefaultWindows(start: int, count: int): seq<Window> {
    seq(if count < 0 then 0 else count,
        i => Window(i, FirstSunday(start) + WEEK * i, FirstSunday(start) + WEEK * i + 14400))
  }

  method CreateDefaultWindows(start: int, count: int) returns (ws: seq<Window>)
    ensures ws == DefaultWindows(start, count)
    ensures |ws| == if count < 0 then 0 else count
    ensures forall i :: 0 <= i < |ws| ==> ws[i].end - ws[i].start == 4 * 3600
    ensures forall i :: 0 < i < |ws| ==> ws[i].start - ws[i - 1].start == 7 * 86_400
  {
    var current := start;
    ghost var days := 0;
    while Weekday(current) != 6
      invariant current == start + DAY * days && 0 <= days <= 6 - Weekday(start)
      invariant Weekday(current) == Weekday(start) + days
      decreases 6 - days
    {
      assert (current + DAY) / DAY == current / DAY + 1;
      current, days := current + DAY, days + 1;
    }
    assert current / DAY == start / DAY + days;
    current := current / DAY * DAY + 7200;
    ws := [];
    var i := 0;
    while i < count
      invariant 0 <= i <= (if count < 0 then 0 else count) && |ws| == i
      invariant current == FirstSunday(start) + WEEK * i
      invariant forall k :: 0 <= k < i ==>
                  ws[k] == Window(k, FirstSunday(start) + WEEK * k, FirstSunday(start) + WEEK * k + 14400)
    {
      ws := ws + [Window(i, current, current + 14400)];
      current := current + WEEK;
      i := i + 1;
    }
  }

  /** The epoch fell on a Thursday, each day is the next weekday, and the first Sunday window after it is on the fourth. */
  lemma EpochWasThursday(t: int)
    ensures Weekday(0) == 3 && Weekday(t + 86_400) == (Weekday(t) + 1) % 7
    ensures FirstSunday(0) == 3 * 86_400 + 2 * 3600
  {
    assert (t + DAY) / DAY == t / DAY + 1;
  }

  /** The first default window starts on a Sunday, at most a week ahead, and in the future unless it is Sunday past two. */
  lemma FirstSundayIsNear(start: int)
    ensures Weekday(FirstSunday(start)) == 6 && FirstSunday(start) % DAY == 7200
    ensures FirstSunday(start) - start <= WEEK
    ensures start <= FirstSunday(start) <==> !(Weekday(start) == 6 && start % DAY > 7200)
  {
    assert FirstSunday(start) / DAY == start / DAY + (6 - Weekday(start));
    assert start == start / DAY * DAY + start % DAY;
  }

  // ---------- the whole plan ----------

  /** The entries name windows of the list. */
  ghost predicate InRange(schedule: seq<Entry>, ws: seq<Window>) {
    forall e :: 0 <= e < |schedule| ==> schedule[e].window < |ws| && schedule[e].risk == Risk(schedule[e].vulns)
  }

  lemma OneMoreBundle(bundles: seq<Bundle>, b: Bundle, schedule: seq<Entry>, ws: seq<Window>, i: nat)
    requires i < |schedule| && schedule[i].window < |ws| && b == BundleOf(schedule[i], ws)
    requires AllItems(bundles) == ItemsOf(Flatten(schedule[..i]))
    ensures AllItems(bundles + [b]) == ItemsOf(Flatten(schedule[..i + 1]))
  {
    AllItemsAppend(bundles, b);
    FlattenAppend(schedule[..i], schedule[i]);
    assert schedule[..i + 1] == schedule[..i] + [schedule[i]];
    ItemsOfConcat(Flatten(schedule[..i]), schedule[i].vulns);
  }

  method CreateBundles(schedule: seq<Entry>, ws: seq<Window>) returns (bundles: seq<Bundle>)
    requires InRange(schedule, ws)
    ensures |bundles| == |schedule| && AllItems(bundles) == ItemsOf(Flatten(schedule))
    ensures forall e :: 0 <= e < |schedule| ==> bundles[e] == BundleOf(schedule[e], ws)
  {
    bundles := [];
    for i := 0 to |schedule|
      invariant |bundles| == i && AllItems(bundles) == ItemsOf(Flatten(schedule[..i]))
      invariant forall e :: 0 <= e < i ==> bundles[e] == BundleOf(schedule[e], ws)
    {
      var b := CreateBundle(schedule[i], ws);
      OneMoreBundle(bundles, b, schedule, ws, i);
      bundles := bundles + [b];
    }
    assert schedule[..|schedule|] == schedule;
  }

  /** The two totals reported for a schedule. */
  method Totals(schedule: seq<Entry>, ws: seq<Window>) returns (scheduled: nat, risk: int)
    requires InRange(schedule, ws)
    ensures scheduled == |Flatten(schedule)| && risk == Risk(Flatten(schedule))
  {
    scheduled, risk := 0, 0;
    for i := 0 to |schedule|
      invariant scheduled == |Flatten(schedule[..i])| && risk == Risk(Flatten(schedule[..i]))
    {
      FlattenAppend(schedule[..i], schedule[i]);
      assert schedule[..i + 1] == schedule[..i] + [schedule[i]];
      RiskConcat(Flatten(schedule[..i]), schedule[i].vulns);
      scheduled, risk := scheduled + |schedule[i].vulns|, risk + schedule[i].risk;
    }
    assert schedule[..|schedule|] == schedule;
  }

  /** The items the plan covers: the top of the sorted list, as far as the windows have room. */
  function Covered(items: seq<AssetVuln>, g: Limits, ws: seq<Window>): seq<AssetVuln> {
    SortDesc(items, Score)[..Min(|items|, RoomIn(g, ws, 0, |ws|))]
  }

  lemma PackedSchedule(items: seq<AssetVuln>, g: Limits, ws: seq<Window>)
    ensures var schedule := Pack(SortDesc(items, Score), g, ws, 0);
            InRange(schedule, ws) && Flatten(schedule) == Covered(items, g, ws)
  {
    var s := SortDesc(items, Score);
    var schedule := Pack(s, g, ws, 0);
    forall e | 0 <= e < |schedule| ensures schedule[e].window < |ws| && schedule[e].risk == Risk(schedule[e].vulns) {
      PackEntries(s, g, ws, 0, e);
    }
    PackFlattens(s, g, ws, 0);
  }

  /** Where the schedule ends. */
  function Completion(schedule: seq<Entry>, ws: seq<Window>): Option<int> {
    if schedule == [] || schedule[|schedule| - 1].window >= |ws| then None
    else Some(ws[schedule[|schedule| - 1].window].end)
  }

  method OptimizeGoal(items: seq<AssetVuln>, windows: seq<Window>, start: int, maxFuture: int, g: Limits, preview: bool)
    returns (plan: Plan, bundles: seq<Bundle>, ghost ws: seq<Window>)
    ensures ws == if items != [] && windows == [] then DefaultWindows(start, maxFuture) else windows
    ensures items == [] ==> plan == Plan(0, 0, None, 0) && bundles == []
    ensures plan.scheduled == |Covered(items, g, ws)| && plan.riskReduction == Risk(Covered(items, g, ws))
    ensures plan.bundlesCreated == |bundles|
    ensures preview || items == [] ==> bundles == []
    ensures !preview && items != [] ==>
              var schedule := Pack(SortDesc(items, Score), g, ws, 0);
              && InRange(schedule, ws) && |bundles| == |schedule|
              && forall e :: 0 <= e < |schedule| ==> bundles[e] == BundleOf(schedule[e], ws)
    ensures AllItems(bundles) == if preview then [] else ItemsOf(Covered(items, g, ws))
    ensures plan.completion == Completion(Pack(SortDesc(items, Score), g, ws, 0), ws)
    ensures var schedule := Pack(SortDesc(items, Score), g, ws, 0);
            InRange(schedule, ws) && plan.completion == if schedule == [] then None else Some(ws[schedule[|schedule| - 1].window].end)
  {
    ws := windows;
    if items == [] {
      return Plan(0, 0, None, 0), [], ws;
    }
    var used := windows;
    if used == [] {
      used := CreateDefaultWindows(start, maxFuture);
    }
    ws := used;
    var schedule := OptimizeWithHeuristic(items, used, g);
    PackedSchedule(items, g, used);
    bundles := [];
    if !preview {
      bundles := CreateBundles(schedule, used);
    }
    var scheduled, risk := Totals(schedule, used);
    var completion := if schedule == [] then None else Some(used[schedule[|schedule| - 1].window].end);
    plan := Plan(scheduled, |bundles|, completion, risk);
  }

  // ---------- no pair twice ----------

  ghost predicate Differ(x: AssetVuln, y: AssetVuln) {
    x.vulnerability.id != y.vulnerability.id || x.asset.id != y.asset.id
  }

  ghost predicate Apart(x: AssetVuln, s: seq<AssetVuln>) {
    forall y :: y in s ==> Differ(x, y)
  }

  ghost predicate DistinctPairs(avs: seq<AssetVuln>) {
    avs == [] || (Apart(avs[0], avs[1..]) && DistinctPairs(avs[1..]))
  }

  lemma {:induction false} InsertKeepsPairsDistinct(x: AssetVuln, s: seq<AssetVuln>)
    requires DistinctPairs(s) && Apart(x, s)
    ensures DistinctPairs(InsertDesc(x, s, Score))
  {
    if s == [] || Score(s[0]) <= Score(x) {
      assert ([x] + s)[1..] == s;
    } else {
      var t := InsertDesc(x, s[1..], Score);
      InsertKeepsPairsDistinct(x, s[1..]);
      InsertKeepsElements(x, s[1..], Score);
      assert s[0] in s;
      assert ([s[0]] + t)[1..] == t;
      forall y | y in t ensures Differ(s[0], y) {
        assert y in multiset(t);
        assert y == x || y in s[1..];
      }
    }
  }

  lemma {:induction false} SortKeepsPairsDistinct(items: seq<AssetVuln>)
    requires DistinctPairs(items)
    ensures DistinctPairs(SortDesc(items, Score))
  {
    if items != [] {
      SortKeepsPairsDistinct(items[1..]);
      SortSorts(items[1..], Score);
      var s := SortDesc(items[1..], Score);
      forall y | y in s ensures Differ(items[0], y) {
        assert y in multiset(s);
        assert y in items[1..];
      }
      InsertKeepsPairsDistinct(items[0], s);
    }
  }

  lemma {:induction false} DistinctAt(avs: seq<AssetVuln>, i: nat, j: nat)
    requires DistinctPairs(avs) && i < j < |avs|
    ensures Differ(avs[i], avs[j])
  {
    if i == 0 {
      assert avs[1..][j - 1] in avs[1..];
    } else {
      DistinctAt(avs[1..], i - 1, j - 1);
    }
  }

  lemma {:induction false} ItemsOfAt(avs: seq<AssetVuln>, i: nat)
    requires i < |avs|
    ensures |ItemsOf(avs)| == |avs| && ItemsOf(avs)[i] == ItemOf(avs[i])
  {
    if |avs| > 1 {
      ItemsOfAt(avs[1..], if i == 0 then 0 else i - 1);
    }
  }

  /** No (vulnerability, asset) pair is repeated among the bundle items when none is repeated in the input. */
  lemma NoPairTwice(items: seq<AssetVuln>, g: Limits, ws: seq<Window>, i: nat, j: nat)
    requires DistinctPairs(items) && i < j < |ItemsOf(Covered(items, g, ws))|
    ensures var rows := ItemsOf(Covered(items, g, ws));
            rows[i].vulnerability != rows[j].vulnerability || rows[i].asset != rows[j].asset
  {
    var top := Covered(items, g, ws);
    if top != [] {
      ItemsOfAt(top, 0);
    }
    SortKeepsPairsDistinct(items);
    DistinctAt(SortDesc(items, Score), i, j);
    ItemsOfAt(top, i);
    ItemsOfAt(top, j);
  }
}
