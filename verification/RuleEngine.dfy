/** Deployment rules: scopes, calendar conditions and verdicts (backend/services/rule_engine.py). */
module RuleEngine {
  import opened Results
  import opened Sorting

  // ---------- the calendar ----------

  datatype Date = Date(year: int, month: int, day: int)

  predicate IsLeap(y: int) {
    y % 4 == 0 && (y % 100 != 0 || y % 400 == 0)
  }

  function DaysIn(year: int, month: int): int {
    if month == 2 then (if IsLeap(year) then 29 else 28)
    else if month == 4 || month == 6 || month == 9 || month == 11 then 30
    else 31
  }

  /** April, June, September and November have thirty days, February 28, or 29 in 1996, 2000 and 2004 but not in 1900. */
  lemma KnownMonths(year: int)
    ensures forall m :: m in {1, 3, 5, 7, 8, 10, 12} ==> DaysIn(year, m) == 31
    ensures forall m :: m in {4, 6, 9, 11} ==> DaysIn(year, m) == 30
    ensures DaysIn(1996, 2) == DaysIn(2000, 2) == DaysIn(2004, 2) == 29
    ensures DaysIn(1900, 2) == DaysIn(2001, 2) == DaysIn(2023, 2) == 28
  {
  }

  predicate IsDate(d: Date) {
    1 <= d.month <= 12 && 1 <= d.day <= DaysIn(d.year, d.month)
  }

  /** A date that exists. */
  type Day = d: Date | IsDate(d) witness Date(2025, 1, 1)

  /** The month end is fewer than daysBefore days away. */
  predicate IsNearMonthEnd(d: Date, daysBefore: int) {
    DaysIn(d.year, d.month) - d.day < daysBefore
  }

  predicate IsNearQuarterEnd(d: Date, daysBefore: int) {
    d.month in {3, 6, 9, 12} && DaysIn(d.year, d.month) - d.day < daysBefore
  }

  function NextDay(d: Date): (r: Date)
    requires IsDate(d)
    ensures IsDate(r)
  {
    if d.day < DaysIn(d.year, d.month) then Date(d.year, d.month, d.day + 1)
    else if d.month < 12 then Date(d.year, d.month + 1, 1)
    else Date(d.year + 1, 1, 1)
  }

  function Advance(d: Date, n: nat): (r: Date)
    requires IsDate(d)
    ensures IsDate(r)
    decreases n
  {
    if n == 0 then d else Advance(NextDay(d), n - 1)
  }

  function MonthIndex(d: Date): int {
    12 * d.year + d.month - 1
  }

  function QuarterIndex(d: Date): int {
    4 * d.year + (d.month - 1) / 3
  }

  lemma {:induction false} MonthsDoNotGoBack(d: Date, n: nat)
    requires IsDate(d)
    ensures MonthIndex(d) <= MonthIndex(Advance(d, n))
    decreases n
  {
    if n > 0 {
      MonthsDoNotGoBack(NextDay(d), n - 1);
    }
  }

  lemma {:induction false} AdvanceWithinMonth(d: Date, n: nat)
    requires IsDate(d) && d.day + n <= DaysIn(d.year, d.month)
    ensures Advance(d, n) == Date(d.year, d.month, d.day + n)
    decreases n
  {
    if n > 0 {
      AdvanceWithinMonth(NextDay(d), n - 1);
    }
  }

  /** The first day of the following month. */
  function NextMonth(d: Date): Date {
    if d.month < 12 then Date(d.year, d.month + 1, 1) else Date(d.year + 1, 1, 1)
  }

  lemma {:induction false} AdvancePastMonth(d: Date, n: nat)
    requires IsDate(d) && d.day + n > DaysIn(d.year, d.month)
    ensures Advance(d, n) == Advance(NextMonth(d), n - (DaysIn(d.year, d.month) - d.day) - 1)
    decreases n
  {
    if d.day < DaysIn(d.year, d.month) {
      AdvancePastMonth(NextDay(d), n - 1);
    }
  }

  /** The month-end test holds exactly when that many days from now lie in a later month. */
  lemma MonthEndIff(d: Date, n: nat)
    requires IsDate(d)
    ensures IsNearMonthEnd(d, n) <==> MonthIndex(Advance(d, n)) > MonthIndex(d)
  {
    if d.day + n <= DaysIn(d.year, d.month) {
      AdvanceWithinMonth(d, n);
    } else {
      var rest := n - (DaysIn(d.year, d.month) - d.day) - 1;
      AdvancePastMonth(d, n);
      MonthsDoNotGoBack(NextMonth(d), rest);
    }
  }

  /** The quarter-end test at its word: that many days from now lie in a later quarter. */
  ghost predicate QuarterEndAsDocumented(d: Date, n: nat)
    requires IsDate(d)
  {
    IsNearQuarterEnd(d, n) <==> QuarterIndex(Advance(d, n)) > QuarterIndex(d)
  }

  lemma QuarterFollowsMonth(d: Date, e: Date)
    requires IsDate(d) && IsDate(e) && MonthIndex(d) <= MonthIndex(e)
    ensures QuarterIndex(d) <= QuarterIndex(e)
    ensures d.month % 3 == 0 ==> (MonthIndex(d) < MonthIndex(e) <==> QuarterIndex(d) < QuarterIndex(e))
  {
    assert QuarterIndex(d) == MonthIndex(d) / 3;
    assert QuarterIndex(e) == MonthIndex(e) / 3;
  }

  /** In the first two months of a quarter thirty days do not leave it. */
  lemma ThirtyDaysStayInQuarter(d: Date, n: nat)
    requires IsDate(d) && d.month % 3 != 0 && n <= 30
    ensures QuarterIndex(Advance(d, n)) == QuarterIndex(d)
  {
    if d.day + n <= DaysIn(d.year, d.month) {
      AdvanceWithinMonth(d, n);
    } else {
      var e, m := NextMonth(d), n - (DaysIn(d.year, d.month) - d.day) - 1;
      AdvancePastMonth(d, n);
      if 1 + m <= DaysIn(e.year, e.month) {
        AdvanceWithinMonth(e, m);
      } else {
        AdvancePastMonth(e, m);
        AdvanceWithinMonth(NextMonth(e), m - (DaysIn(e.year, e.month) - 1) - 1);
      }
    }
  }

  lemma QuarterEndWithinThirty(d: Date, n: nat)
    requires IsDate(d) && n <= 30
    ensures QuarterEndAsDocumented(d, n)
  {
    if d.month % 3 == 0 {
      MonthEndIff(d, n);
      MonthsDoNotGoBack(d, n);
      QuarterFollowsMonth(d, Advance(d, n));
    } else {
      ThirtyDaysStayInQuarter(d, n);
    }
  }

  lemma EndOfMayAdvances(n: nat)
    requires n > 30
    ensures MonthIndex(Advance(Date(2025, 5, 31), n)) >= MonthIndex(Date(2025, 7, 1))
  {
    AdvancePastMonth(Date(2025, 5, 31), n);
    AdvancePastMonth(Date(2025, 6, 1), n - 1);
    MonthsDoNotGoBack(Date(2025, 7, 1), n - 31);
  }

  /** The end of May is thirty-one days before the third quarter, yet May is never near a quarter end. */
  lemma EndOfMayIsMissed(n: nat) returns (d: Date)
    requires n > 30
    ensures d.year == 2025 && d.month == 5 && d.day == 31
    ensures IsDate(d) && !QuarterEndAsDocumented(d, n)
  {
    d := Date(2025, 5, 31);
    EndOfMayAdvances(n);
    QuarterFollowsMonth(Date(2025, 7, 1), Advance(d, n));
  }

  ghost predicate DocumentedOnEveryDate(n: nat) {
    forall d: Date :: IsDate(d) ==> QuarterEndAsDocumented(d, n)
  }

  lemma ThirtyDaysAreFine(n: nat)
    requires n <= 30
    ensures DocumentedOnEveryDate(n)
  {
    forall d: Date | IsDate(d) ensures QuarterEndAsDocumented(d, n) {
      QuarterEndWithinThirty(d, n);
    }
  }

  /** The quarter-end test means what it says on every date exactly for windows of at most thirty days. */
  lemma QuarterEndIff(n: nat)
    ensures DocumentedOnEveryDate(n) <==> n <= 30
  {
    if n <= 30 {
      ThirtyDaysAreFine(n);
    } else {
      var d := EndOfMayIsMissed(n);
    }
  }

  // ---------- rules ----------

  /** The moment of evaluation; weekday 0 is Monday. */
  datatype Moment = Moment(date: Day, weekday: int, hour: int)

  datatype Scope = GlobalScope | EnvironmentScope | TagScope | AssetScope | OtherScope

  /** Unknown day names are dropped when a pattern is read. */
  datatype Condition =
    | Always
    | MonthEnd(daysBefore: int)
    | QuarterEnd(daysBefore: int)
    | DayOfWeek(days: set<int>, afterHour: Option<int>)
    | CalendarHoliday
    | OtherCondition

  datatype Action = Block | Warn | RequireApproval | EscalateRisk | Notify | OtherAction

  datatype Rule = Rule(
    tenant: int, enabled: bool, scope: Scope, scopeValue: Option<string>, scopeTags: seq<string>,
    condition: Condition, action: Action, priority: int)

  datatype Verdict = VerdictAllow | VerdictWarn | VerdictBlock

  /** What the caller tells about the deployment; absent and empty lists count the same. */
  datatype Context = Context(assets: seq<string>, tags: seq<string>, environment: Option<string>)

  /** Execution passes neither assets nor tags nor an environment. */
  const NO_CONTEXT := Context([], [], None)

  predicate MatchesScope(r: Rule, c: Context) {
    match r.scope
    case GlobalScope => true
    case EnvironmentScope => c.environment.Some? && c.environment.value != "" && r.scopeValue == c.environment
    case TagScope =>
      c.tags != [] &&
      (if r.scopeTags != [] then forall t :: t in r.scopeTags ==> t in c.tags
       else r.scopeValue.Some? && r.scopeValue.value != "" && r.scopeValue.value in c.tags)
    case AssetScope => c.assets != [] && r.scopeValue.Some? && r.scopeValue.value in c.assets
    case OtherScope => false
  }

  predicate MatchesCondition(r: Rule, now: Moment) {
    match r.condition
    case Always => true
    case MonthEnd(n) => IsNearMonthEnd(now.date, n)
    case QuarterEnd(n) => IsNearQuarterEnd(now.date, n)
    case DayOfWeek(days, afterHour) =>
      now.weekday in days && (afterHour.Some? ==> now.hour >= afterHour.value)
    case CalendarHoliday => false
    case OtherCondition => false
  }

  /** An enabled rule of the tenant that applies here and now. */
  predicate Applies(r: Rule, tenant: int, c: Context, now: Moment) {
    r.tenant == tenant && r.enabled && MatchesScope(r, c) && MatchesCondition(r, now)
  }

  predicate Warns(a: Action) {
    a == Warn || a == RequireApproval || a == EscalateRisk || a == Notify
  }

  /** The verdict that the rules demand, whatever their order. */
  ghost function VerdictFor(rules: seq<Rule>, tenant: int, c: Context, now: Moment): Verdict {
    if exists r :: r in rules && Applies(r, tenant, c, now) && r.action == Block then VerdictBlock
    else if exists r :: r in rules && Applies(r, tenant, c, now) && Warns(r.action) then VerdictWarn
    else VerdictAllow
  }

  /** The rules that apply, by falling priority. */
  function Matching(all: seq<Rule>, tenant: int, c: Context, now: Moment): seq<Rule> {
    SortDesc(Filter(all, (r: Rule) => Applies(r, tenant, c, now)), (r: Rule) => r.priority)
  }

  lemma MatchingMembers(all: seq<Rule>, tenant: int, c: Context, now: Moment)
    ensures forall r :: r in Matching(all, tenant, c, now) <==> r in all && Applies(r, tenant, c, now)
  {
    var applies, priority := (r: Rule) => Applies(r, tenant, c, now), (r: Rule) => r.priority;
    FilterMembers(all, applies);
    SortSorts(Filter(all, applies), priority);
    var m, f := SortDesc(Filter(all, applies), priority), Filter(all, applies);
    forall r ensures r in m <==> r in f {
      assert r in m <==> r in multiset(m);
      assert r in f <==> r in multiset(f);
    }
  }

  /** Loads the tenant's enabled rules by falling priority, collects the matches and decides. */
  method EvaluateDeployment(all: seq<Rule>, tenant: int, c: Context, now: Moment)
    returns (verdict: Verdict, matches: seq<Rule>, evaluated: nat)
    ensures matches == Matching(all, tenant, c, now)
    ensures verdict == VerdictFor(all, tenant, c, now)
    ensures evaluated == |Filter(all, (r: Rule) => r.tenant == tenant && r.enabled)|
  {
    var rules := Loaded(all, tenant);
    evaluated := |rules|;
    matches := [];
    ghost var here := (r: Rule) => MatchesScope(r, c) && MatchesCondition(r, now);
    for i := 0 to |rules|
      invariant matches == Filter(rules[..i], here)
    {
      FilterConcat(rules[..i], [rules[i]], here);
      assert rules[..i + 1] == rules[..i] + [rules[i]];
      if MatchesScope(rules[i], c) && MatchesCondition(rules[i], now) {
        matches := matches + [rules[i]];
      }
    }
    assert rules[..|rules|] == rules;
    LoadedThenMatched(all, tenant, c, now);
    verdict := DetermineVerdict(matches);
    MatchingMembers(all, tenant, c, now);
  }

  function Loaded(all: seq<Rule>, tenant: int): seq<Rule> {
    SortDesc(Filter(all, (r: Rule) => r.tenant == tenant && r.enabled), (r: Rule) => r.priority)
  }

  lemma LoadedThenMatched(all: seq<Rule>, tenant: int, c: Context, now: Moment)
    ensures Filter(Loaded(all, tenant), (r: Rule) => MatchesScope(r, c) && MatchesCondition(r, now))
            == Matching(all, tenant, c, now)
  {
    var mine := (r: Rule) => r.tenant == tenant && r.enabled;
    var here := (r: Rule) => MatchesScope(r, c) && MatchesCondition(r, now);
    var applies, priority := (r: Rule) => Applies(r, tenant, c, now), (r: Rule) => r.priority;
    FilterSort(Filter(all, mine), priority, here);
    FilterFilter(all, mine, here, applies);
  }

  method DetermineVerdict(matches: seq<Rule>) returns (v: Verdict)
    ensures v == VerdictBlock <==> exists r :: r in matches && r.action == Block
    ensures v == VerdictWarn <==>
              (forall r :: r in matches ==> r.action != Block)
              && exists r :: r in matches && r.action in {Warn, RequireApproval, EscalateRisk, Notify}
  {
    var block, warn := false, false;
    for i := 0 to |matches|
      invariant block <==> exists r :: r in matches[..i] && r.action == Block
      invariant warn <==> exists r :: r in matches[..i] && Warns(r.action)
    {
      assert matches[..i + 1] == matches[..i] + [matches[i]];
      block := block || matches[i].action == Block;
      warn := warn || Warns(matches[i].action);
    }
    assert matches[..|matches|] == matches;
    v := if block then VerdictBlock else if warn then VerdictWarn else VerdictAllow;
  }

  // ---------- what rules mean, without the engine's own tests ----------

  /**
   The condition in terms of the calendar and the clock: that many days from now lie in a later month or
   quarter, or the weekday is listed and its hour has come. Beyond thirty days the quarter condition holds
   throughout the quarter's last month instead.
   */
  ghost predicate InForce(condition: Condition, now: Moment) {
    match condition
    case Always => true
    case MonthEnd(n) => n >= 0 && MonthIndex(Advance(now.date, n)) > MonthIndex(now.date)
    case QuarterEnd(n) =>
      if n <= 30 then n >= 0 && QuarterIndex(Advance(now.date, n)) > QuarterIndex(now.date)
      else now.date.month == 3 || now.date.month == 6 || now.date.month == 9 || now.date.month == 12
    case DayOfWeek(days, afterHour) =>
      now.weekday in days && (afterHour == None || afterHour.value <= now.hour)
    case CalendarHoliday => false
    case OtherCondition => false
  }

  lemma ConditionMeans(r: Rule, now: Moment)
    ensures MatchesCondition(r, now) <==> InForce(r.condition, now)
  {
    match r.condition
    case MonthEnd(n) =>
      if n >= 0 {
        MonthEndIff(now.date, n);
      }
    case QuarterEnd(n) =>
      if 0 <= n <= 30 {
        QuarterEndWithinThirty(now.date, n);
      }
    case _ =>
  }

  /** The scope in terms of what the caller tells; empty strings and lists tell nothing. */
  ghost predicate Reaches(r: Rule, c: Context) {
    || r.scope == GlobalScope
    || (r.scope == EnvironmentScope && exists e :: e != "" && c.environment == Some(e) && r.scopeValue == Some(e))
    || (r.scope == TagScope && r.scopeTags != [] && c.tags != []
        && forall i :: 0 <= i < |r.scopeTags| ==> r.scopeTags[i] in c.tags)
    || (r.scope == TagScope && r.scopeTags == [] && exists t :: t != "" && t in c.tags && r.scopeValue == Some(t))
    || (r.scope == AssetScope && exists a :: a in c.assets && r.scopeValue == Some(a))
  }

  lemma ScopeMeans(r: Rule, c: Context)
    ensures MatchesScope(r, c) <==> Reaches(r, c)
  {
  }

  /** A rule of this tenant, enabled, reaching the deployment and in force, with one of these actions. */
  ghost predicate Demands(rules: seq<Rule>, tenant: int, c: Context, now: Moment, actions: set<Action>) {
    exists i :: 0 <= i < |rules| && rules[i].tenant == tenant && rules[i].enabled && rules[i].action in actions
                && Reaches(rules[i], c) && InForce(rules[i].condition, now)
  }

  lemma DemandsIff(rules: seq<Rule>, tenant: int, c: Context, now: Moment, actions: set<Action>)
    ensures Demands(rules, tenant, c, now, actions)
       <==> exists r :: r in rules && Applies(r, tenant, c, now) && r.action in actions
  {
    if Demands(rules, tenant, c, now, actions) {
      var i :| 0 <= i < |rules| && rules[i].tenant == tenant && rules[i].enabled && rules[i].action in actions
               && Reaches(rules[i], c) && InForce(rules[i].condition, now);
      ConditionMeans(rules[i], now);
      ScopeMeans(rules[i], c);
      assert rules[i] in rules;
    }
    if r :| r in rules && Applies(r, tenant, c, now) && r.action in actions {
      ConditionMeans(r, now);
      ScopeMeans(r, c);
      var i :| 0 <= i < |rules| && rules[i] == r;
    }
  }

  /** The matches are exactly the tenant's enabled rules that reach the deployment and are in force. */
  lemma MatchingMeans(all: seq<Rule>, tenant: int, c: Context, now: Moment, r: Rule)
    ensures r in Matching(all, tenant, c, now)
       <==> r in all && r.tenant == tenant && r.enabled && Reaches(r, c) && InForce(r.condition, now)
  {
    MatchingMembers(all, tenant, c, now);
    ConditionMeans(r, now);
    ScopeMeans(r, c);
  }

  /** They come by falling priority. */
  lemma MatchingByPriority(all: seq<Rule>, tenant: int, c: Context, now: Moment)
    ensures var matches := Matching(all, tenant, c, now);
            forall i, j :: 0 <= i < j < |matches| ==> matches[j].priority <= matches[i].priority
  {
    SortSorts(Filter(all, (r: Rule) => Applies(r, tenant, c, now)), (r: Rule) => r.priority);
  }

  /** Blocked exactly by a blocking rule, warned exactly by any of the four others without one. */
  lemma VerdictMeans(rules: seq<Rule>, tenant: int, c: Context, now: Moment)
    ensures VerdictFor(rules, tenant, c, now) == VerdictBlock <==> Demands(rules, tenant, c, now, {Block})
    ensures VerdictFor(rules, tenant, c, now) == VerdictAllow
       <==> !Demands(rules, tenant, c, now, {Block, Warn, RequireApproval, EscalateRisk, Notify})
  {
    DemandsIff(rules, tenant, c, now, {Block});
    DemandsIff(rules, tenant, c, now, {Block, Warn, RequireApproval, EscalateRisk, Notify});
    if r :| r in rules && Applies(r, tenant, c, now) && r.action == Block {
      assert r.action in {Block};
    }
  }

  /** An enabled global rule of the tenant that blocks is in force. */
  ghost predicate Blocks(rules: seq<Rule>, tenant: int, now: Moment) {
    exists i :: 0 <= i < |rules| && rules[i].tenant == tenant && rules[i].enabled && rules[i].scope == GlobalScope
                && rules[i].action == Block && InForce(rules[i].condition, now)
  }

  /** Execution, which tells neither assets nor tags nor an environment, is blocked exactly by such a rule. */
  lemma ExecutionBlockedIff(rules: seq<Rule>, tenant: int, now: Moment)
    ensures VerdictFor(rules, tenant, NO_CONTEXT, now) == VerdictBlock <==> Blocks(rules, tenant, now)
  {
    VerdictMeans(rules, tenant, NO_CONTEXT, now);
    if Demands(rules, tenant, NO_CONTEXT, now, {Block}) {
      var i :| 0 <= i < |rules| && rules[i].tenant == tenant && rules[i].enabled && rules[i].action in {Block}
               && Reaches(rules[i], NO_CONTEXT) && InForce(rules[i].condition, now);
      assert rules[i].scope == GlobalScope && rules[i].action == Block;
    }
    if Blocks(rules, tenant, now) {
      var i :| 0 <= i < |rules| && rules[i].tenant == tenant && rules[i].enabled && rules[i].scope == GlobalScope
               && rules[i].action == Block && InForce(rules[i].condition, now);
      assert Reaches(rules[i], NO_CONTEXT) && rules[i].action in {Block};
    }
  }

  /** Only this rule's condition decides whether a list of one global block rule blocks. */
  lemma OneRuleBlocksIff(r: Rule, now: Moment)
    requires r.enabled && r.scope == GlobalScope && r.action == Block
    ensures VerdictFor([r], r.tenant, NO_CONTEXT, now) == VerdictBlock <==> InForce(r.condition, now)
  {
    ExecutionBlockedIff([r], r.tenant, now);
    if InForce(r.condition, now) {
      assert [r][0] == r;
      assert Blocks([r], r.tenant, now);
    }
  }

  /** A weekday rule blocks the rest of a listed day from its hour on, and no other day. */
  lemma WeekdayRuleBlocksFrom(r: Rule, days: set<int>, hour: int, date: Day, weekday: int, now: int)
    requires r.enabled && r.scope == GlobalScope && r.action == Block && r.condition == DayOfWeek(days, Some(hour))
    ensures VerdictFor([r], r.tenant, NO_CONTEXT, Moment(date, weekday, now)) == VerdictBlock
       <==> weekday in days && hour <= now
    ensures VerdictFor([r], r.tenant, NO_CONTEXT, Moment(date, weekday, now)) == VerdictBlock ==>
              forall later :: now <= later ==>
                VerdictFor([r], r.tenant, NO_CONTEXT, Moment(date, weekday, later)) == VerdictBlock
  {
    OneRuleBlocksIff(r, Moment(date, weekday, now));
    forall later | now <= later && weekday in days && hour <= now
      ensures VerdictFor([r], r.tenant, NO_CONTEXT, Moment(date, weekday, later)) == VerdictBlock
    {
      OneRuleBlocksIff(r, Moment(date, weekday, later));
    }
  }

  /** Rules on holidays or with conditions the engine does not know never block. */
  lemma HolidayRulesNeverBlock(rules: seq<Rule>, tenant: int, c: Context, now: Moment)
    requires forall i :: 0 <= i < |rules| ==>
               rules[i].condition == CalendarHoliday || rules[i].condition == OtherCondition
    ensures VerdictFor(rules, tenant, c, now) == VerdictAllow
  {
    VerdictMeans(rules, tenant, c, now);
  }
}
