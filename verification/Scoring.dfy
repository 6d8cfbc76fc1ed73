/** The eight-factor risk score (backend/services/scoring.py). */
module Scoring {
  import opened Results

  datatype Severity = CriticalSeverity | HighSeverity | MediumSeverity | LowSeverity | NoSeverity

  datatype Exposure = Internet | Intranet | Isolated

  /** A stored string, as a case-insensitive comparison with the known names reads it. */
  datatype Spelled<+E> =
    | Exactly(name: E)    // a known name in capitals
    | OtherCase(name: E)  // a known name, not all in capitals
    | Unknown             // any other nonempty string
    | Missing             // null or empty

  datatype Vulnerability = Vulnerability(
    id: int,
    severity: Spelled<Severity>,
    epss: Option<int>,  // in millionths
    kevListed: bool,
    patchAvailable: bool,
    exploitAvailable: bool)

  datatype Asset = Asset(id: int, criticality: int, exposure: Spelled<Exposure>, compensatingControls: bool)

  /** A nonempty Snapper record. */
  datatype Runtime = Runtime(codeExecuted: bool, libraryLoaded: bool)

  /** What the score reads besides the vulnerability and the asset. */
  datatype Context = Context(codeExecuted: bool, libraryLoaded: bool, mitigated: bool)

  /** The recorded breakdown: the points of each factor that left a line. */
  datatype Factors = Factors(
    severity: Option<int>, epss: Option<int>, kev: Option<int>, criticality: Option<int>,
    exposure: Option<int>, runtime: Option<int>, noPatch: Option<int>, controls: Option<int>)

  const NO_FACTORS := Factors(None, None, None, None, None, None, None, None)

  datatype Level = LOW | MEDIUM | HIGH | CRITICAL {
    function Rank(): nat {
      match this case LOW => 0 case MEDIUM => 1 case HIGH => 2 case CRITICAL => 3
    }
  }

  datatype Action = ACCEPT_RISK | MONITOR | PATCH_STANDARD | PATCH_IMMEDIATELY {
    function Rank(): nat {
      match this case ACCEPT_RISK => 0 case MONITOR => 1 case PATCH_STANDARD => 2 case PATCH_IMMEDIATELY => 3
    }
  }

  const KEV_BONUS_POINTS := 20
  const RUNTIME_EXECUTED_BONUS := 15
  const RUNTIME_NOT_LOADED_PENALTY := -10
  const NO_PATCH_PENALTY := -5
  const COMPENSATING_CONTROLS_PENALTY := -10

  /** The name looked up after conversion to capitals; a missing or unknown one becomes the default. */
  function NameOr<E>(s: Spelled<E>, default: E): E {
    if s.Exactly? || s.OtherCase? then s.name else default
  }

  /** From millionths to whole points, dropping the fraction towards zero. */
  function Truncate(millionths: int): int {
    if millionths >= 0 then millionths / 1_000_000 else -(-millionths / 1_000_000)
  }

  function SeverityPoints(v: Vulnerability): int {
    match NameOr(v.severity, MediumSeverity)
    case CriticalSeverity => 30
    case HighSeverity => 20
    case MediumSeverity => 10
    case LowSeverity => 5
    case NoSeverity => 0
  }

  function ExposurePoints(a: Asset): int {
    match NameOr(a.exposure, Isolated)
    case Internet => 10
    case Intranet => 5
    case Isolated => 0
  }

  function RuntimePoints(c: Context): int {
    if c.codeExecuted then RUNTIME_EXECUTED_BONUS
    else if c.libraryLoaded then 0
    else RUNTIME_NOT_LOADED_PENALTY
  }

  function Clamp(score: int): int {
    if score > 100 then 100 else if score < 0 then 0 else score
  }

  function EpssPoints(v: Vulnerability): int {
    if v.epss.Some? then Truncate(15 * v.epss.value) else 0
  }

  function ControlPoints(a: Asset, c: Context): int {
    if c.mitigated || a.compensatingControls then COMPENSATING_CONTROLS_PENALTY else 0
  }

  function If(applies: bool, points: int): Option<int> {
    if applies then Some(points) else None
  }

  /** Exactly the factors that apply leave a line. */
  function Breakdown(v: Vulnerability, a: Asset, c: Context): Factors {
    Factors(
      Some(SeverityPoints(v)),
      If(v.epss.Some?, EpssPoints(v)),
      If(v.kevListed, KEV_BONUS_POINTS),
      Some(3 * a.criticality),
      Some(ExposurePoints(a)),
      Some(RuntimePoints(c)),
      If(!v.patchAvailable, NO_PATCH_PENALTY),
      If(c.mitigated || a.compensatingControls, COMPENSATING_CONTROLS_PENALTY))
  }

  function OrZero(points: Option<int>): int {
    if points.Some? then points.value else 0
  }

  /** The sum of all recorded lines. */
  function Total(f: Factors): int {
    OrZero(f.severity) + OrZero(f.epss) + OrZero(f.kev) + OrZero(f.criticality)
    + OrZero(f.exposure) + OrZero(f.runtime) + OrZero(f.noPatch) + OrZero(f.controls)
  }

  /** All eight factors, before clamping. */
  function RawScore(v: Vulnerability, a: Asset, c: Context): int {
    SeverityPoints(v)
    + EpssPoints(v)
    + (if v.kevListed then KEV_BONUS_POINTS else 0)
    + 3 * a.criticality
    + ExposurePoints(a)
    + RuntimePoints(c)
    + (if v.patchAvailable then 0 else NO_PATCH_PENALTY)
    + ControlPoints(a, c)
  }

  function ScoreOf(v: Vulnerability, a: Asset, c: Context): int {
    Clamp(RawScore(v, a, c))
  }

  function RiskLevel(score: int): Level {
    if score >= 80 then CRITICAL else if score >= 60 then HIGH else if score >= 40 then MEDIUM else LOW
  }

  function RecommendedAction(score: int, v: Vulnerability, a: Asset, codeExecuted: bool): Action {
    if score >= 80 || v.kevListed || codeExecuted || (a.exposure == Exactly(Internet) && score >= 60) then
      PATCH_IMMEDIATELY
    else if score >= 40 || v.exploitAvailable then PATCH_STANDARD
    else if score >= 20 then MONITOR
    else ACCEPT_RISK
  }

  /** What a missing or present Snapper record says to the optimizer's scorer. */
  function OptimizerContext(runtime: Option<Runtime>): Context {
    match runtime
    case None => Context(false, false, false)
    case Some(r) => Context(r.codeExecuted, r.libraryLoaded, false)
  }

  function OptimizerScore(v: Vulnerability, a: Asset, runtime: Option<Runtime>): int {
    ScoreOf(v, a, OptimizerContext(runtime))
  }

  // ---------- the rows the service updates ----------

  class AssetVulnRow {
    const vulnerability: Vulnerability
    const asset: Asset
    var codeExecuted: bool
    var libraryLoaded: bool
    var mitigationApplied: bool
    var riskScore: Option<int>
    var scoreFactors: Factors
    var recommendedAction: Option<Action>

    constructor (v: Vulnerability, a: Asset)
      ensures vulnerability == v && asset == a
      ensures !codeExecuted && !libraryLoaded && !mitigationApplied
      ensures riskScore == None && scoreFactors == NO_FACTORS && recommendedAction == None
    {
      vulnerability, asset := v, a;
      codeExecuted, libraryLoaded, mitigationApplied := false, false, false;
      riskScore, scoreFactors, recommendedAction := None, NO_FACTORS, None;
    }

    /** The context the score uses: the record passed in, or the row's own columns. */
    function ContextWith(runtime: Option<Runtime>): Context
      reads this
    {
      match runtime
      case Some(r) => Context(r.codeExecuted, r.libraryLoaded, mitigationApplied)
      case None => Context(codeExecuted, libraryLoaded, mitigationApplied)
    }

    function OwnScore(): int
      reads this
    {
      ScoreOf(vulnerability, asset, ContextWith(None))
    }
  }

  /** Adds the factors one after the other and records each that applies. */
  method AddFactors(v: Vulnerability, a: Asset, c: Context) returns (sum: int, factors: Factors)
    ensures factors == Breakdown(v, a, c) && sum == Total(factors)
  {
    sum := SeverityPoints(v);
    factors := NO_FACTORS.(severity := Some(sum));
    if v.epss.Some? {
      var points := Truncate(15 * v.epss.value);
      sum := sum + points;
      factors := factors.(epss := Some(points));
    }
    if v.kevListed {
      sum := sum + KEV_BONUS_POINTS;
      factors := factors.(kev := Some(KEV_BONUS_POINTS));
    }
    sum := sum + 3 * a.criticality;
    factors := factors.(criticality := Some(3 * a.criticality));
    sum := sum + ExposurePoints(a);
    factors := factors.(exposure := Some(ExposurePoints(a)));
    var points := 0;
    if c.codeExecuted {
      points := RUNTIME_EXECUTED_BONUS;
    } else if !c.libraryLoaded {
      points := RUNTIME_NOT_LOADED_PENALTY;
    }
    sum := sum + points;
    factors := factors.(runtime := Some(points));
    if !v.patchAvailable {
      sum := sum + NO_PATCH_PENALTY;
      factors := factors.(noPatch := Some(NO_PATCH_PENALTY));
    }
    if c.mitigated || a.compensatingControls {
      sum := sum + COMPENSATING_CONTROLS_PENALTY;
      factors := factors.(controls := Some(COMPENSATING_CONTROLS_PENALTY));
    }
  }

  method CalculateScore(row: AssetVulnRow, runtime: Option<Runtime>) returns (score: int)
    modifies row`riskScore, row`scoreFactors
    ensures row.scoreFactors == Breakdown(row.vulnerability, row.asset, row.ContextWith(runtime))
    ensures score == Clamp(Total(row.scoreFactors)) && row.riskScore == Some(score)
    ensures score == ScoreOf(row.vulnerability, row.asset, row.ContextWith(runtime))
    ensures row.ContextWith(runtime) ==
            Context(if runtime.Some? then runtime.value.codeExecuted else row.codeExecuted,
                    if runtime.Some? then runtime.value.libraryLoaded else row.libraryLoaded, row.mitigationApplied)
  {
    var v, a := row.vulnerability, row.asset;
    var c := Context(row.codeExecuted, row.libraryLoaded, row.mitigationApplied);
    if runtime.Some? {
      c := c.(codeExecuted := runtime.value.codeExecuted, libraryLoaded := runtime.value.libraryLoaded);
    }
    var sum, factors := AddFactors(v, a, c);
    BreakdownAddsUp(v, a, c);
    score := if sum < 0 then 0 else if sum > 100 then 100 else sum;
    row.scoreFactors := factors;
    row.riskScore := Some(score);
    assert row.ContextWith(runtime) == c;
  }

  /** The optimizer's wrapper: scores a temporary row that is thrown away. */
  method CalculateVulnerabilityScore(v: Vulnerability, a: Asset, runtime: Option<Runtime>)
    returns (score: int, level: Level, action: Action, factors: Factors)
    ensures score == OptimizerScore(v, a, runtime)
    ensures factors == Breakdown(v, a, OptimizerContext(runtime))
    ensures level == RiskLevel(score)
    ensures action == RecommendedAction(score, v, a, runtime.Some? && runtime.value.codeExecuted)
  {
    var temp := new AssetVulnRow(v, a);
    if runtime.Some? {
      temp.codeExecuted := runtime.value.codeExecuted;
      temp.libraryLoaded := runtime.value.libraryLoaded;
    }
    score := CalculateScore(temp, runtime);
    level := RiskLevel(score);
    action := RecommendedAction(score, v, a, temp.codeExecuted);
    factors := temp.scoreFactors;
  }

  // ---------- bulk scoring ----------

  /** The row carries its own score, breakdown and action. */
  ghost predicate IsScored(r: AssetVulnRow)
    reads r
  {
    && r.riskScore == Some(r.OwnScore())
    && r.scoreFactors == Breakdown(r.vulnerability, r.asset, r.ContextWith(None))
    && r.recommendedAction == Some(RecommendedAction(r.OwnScore(), r.vulnerability, r.asset, r.codeExecuted))
  }

  /** The level a row is counted under, or None when it is skipped. */
  ghost function Outcome(r: AssetVulnRow, recalculate: bool): Option<Level>
    reads r
  {
    if recalculate || r.riskScore == None then Some(RiskLevel(r.OwnScore())) else None
  }

  twostate predicate SameInputs(r: AssetVulnRow)
    reads r
  {
    && r.codeExecuted == old(r.codeExecuted)
    && r.libraryLoaded == old(r.libraryLoaded)
    && r.mitigationApplied == old(r.mitigationApplied)
  }

  /** How many of the outcomes equal x. */
  function Count(outcomes: seq<Option<Level>>, x: Option<Level>): nat {
    if outcomes == [] then 0
    else Count(outcomes[..|outcomes| - 1], x) + if outcomes[|outcomes| - 1] == x then 1 else 0
  }

  /** The summary a bulk run returns. */
  datatype Summary = Summary(scored: nat, critical: nat, high: nat, medium: nat, low: nat) {
    function Of(l: Level): nat {
      match l case CRITICAL => critical case HIGH => high case MEDIUM => medium case LOW => low
    }

    function Add(x: Option<Level>): Summary {
      match x
      case None => this
      case Some(CRITICAL) => Summary(scored + 1, critical + 1, high, medium, low)
      case Some(HIGH) => Summary(scored + 1, critical, high + 1, medium, low)
      case Some(MEDIUM) => Summary(scored + 1, critical, high, medium + 1, low)
      case Some(LOW) => Summary(scored + 1, critical, high, medium, low + 1)
    }
  }

  function Summarize(outcomes: seq<Option<Level>>): Summary {
    if outcomes == [] then Summary(0, 0, 0, 0, 0)
    else Summarize(outcomes[..|outcomes| - 1]).Add(outcomes[|outcomes| - 1])
  }

  lemma SummarizeAppend(outcomes: seq<Option<Level>>, x: Option<Level>)
    ensures Summarize(outcomes + [x]) == Summarize(outcomes).Add(x)
  {
    assert (outcomes + [x])[..|outcomes|] == outcomes;
  }

  /** A summary counts these outcomes, level by level. */
  ghost predicate Counts(s: Summary, outcomes: seq<Option<Level>>) {
    && (forall l: Level :: s.Of(l) == Count(outcomes, Some(l)))
    && s.scored == s.critical + s.high + s.medium + s.low == |outcomes| - Count(outcomes, None)
  }

  lemma CountAppend(outcomes: seq<Option<Level>>, x: Option<Level>, y: Option<Level>)
    ensures Count(outcomes + [x], y) == Count(outcomes, y) + if x == y then 1 else 0
  {
    assert (outcomes + [x])[..|outcomes|] == outcomes;
  }

  lemma AddOf(s: Summary, x: Option<Level>, l: Level)
    ensures s.Add(x).Of(l) == s.Of(l) + if x == Some(l) then 1 else 0
  {
  }

  lemma AddScored(s: Summary, x: Option<Level>)
    requires s.scored == s.critical + s.high + s.medium + s.low
    ensures var t := s.Add(x);
            t.scored == t.critical + t.high + t.medium + t.low == s.scored + if x == None then 0 else 1
  {
  }

  lemma AddCounts(s: Summary, outcomes: seq<Option<Level>>, x: Option<Level>)
    requires Counts(s, outcomes)
    ensures Counts(s.Add(x), outcomes + [x])
  {
    CountAppend(outcomes, x, None);
    AddScored(s, x);
    forall l: Level ensures s.Add(x).Of(l) == Count(outcomes + [x], Some(l)) {
      CountAppend(outcomes, x, Some(l));
      AddOf(s, x, l);
    }
  }

  /** The distribution counts each level and sums to the number of scored rows. */
  lemma {:induction false} SummaryCounts(outcomes: seq<Option<Level>>)
    ensures Counts(Summarize(outcomes), outcomes)
  {
    if outcomes != [] {
      var init, x := outcomes[..|outcomes| - 1], outcomes[|outcomes| - 1];
      assert outcomes == init + [x];
      SummaryCounts(init);
      AddCounts(Summarize(init), init, x);
    }
  }

  /** The loop body: scores the row unless it has a score that may stay. */
  method ScoreRow(row: AssetVulnRow, recalculate: bool) returns (level: Option<Level>)
    modifies row
    ensures RowDone(row, recalculate) && level == old(Outcome(row, recalculate))
  {
    if row.riskScore != None && !recalculate {
      return None;
    }
    var score := CalculateScore(row, None);
    level := Some(RiskLevel(score));
    row.recommendedAction := Some(RecommendedAction(score, row.vulnerability, row.asset, row.codeExecuted));
  }

  /** What a row that is due became, and a row that is not due stayed. */
  twostate predicate RowDone(r: AssetVulnRow, recalculate: bool)
    reads r
  {
    && SameInputs(r)
    && if recalculate || old(r.riskScore) == None then IsScored(r) else unchanged(r)
  }

  /** The rows are the objects of one query, so none occurs twice. */
  method BulkScore(rows: seq<AssetVulnRow>, recalculate: bool)
    returns (summary: Summary, ghost outcomes: seq<Option<Level>>)
    requires forall i, j :: 0 <= i < j < |rows| ==> rows[i] != rows[j]
    modifies rows
    ensures forall i :: 0 <= i < |rows| ==> RowDone(rows[i], recalculate)
    ensures |outcomes| == |rows| && forall i :: 0 <= i < |rows| ==> outcomes[i] == old(Outcome(rows[i], recalculate))
    ensures summary == Summarize(outcomes)
  {
    summary := Summary(0, 0, 0, 0, 0);
    outcomes := [];
    for i := 0 to |rows|
      invariant forall k :: 0 <= k < i ==> RowDone(rows[k], recalculate)
      invariant forall k :: i <= k < |rows| ==> unchanged(rows[k])
      invariant |outcomes| == i && forall k :: 0 <= k < i ==> outcomes[k] == old(Outcome(rows[k], recalculate))
      invariant summary == Summarize(outcomes)
    {
      var level := ScoreRow(rows[i], recalculate);
      summary := summary.Add(level);
      SummarizeAppend(outcomes, level);
      outcomes := outcomes + [level];
    }
  }

  lemma {:induction false} CountNone(outcomes: seq<Option<Level>>)
    ensures (forall i :: 0 <= i < |outcomes| ==> outcomes[i] == None) ==> Count(outcomes, None) == |outcomes|
    ensures (forall i :: 0 <= i < |outcomes| ==> outcomes[i] != None) ==> Count(outcomes, None) == 0
  {
    if outcomes != [] {
      CountNone(outcomes[..|outcomes| - 1]);
    }
  }

  /** Recalculation scores every row and would give every row the same level again. */
  method Recalculate(rows: seq<AssetVulnRow>) returns (summary: Summary, ghost outcomes: seq<Option<Level>>)
    requires forall i, j :: 0 <= i < j < |rows| ==> rows[i] != rows[j]
    modifies rows
    ensures forall i :: 0 <= i < |rows| ==> IsScored(rows[i])
    ensures |outcomes| == |rows| && summary == Summarize(outcomes) && summary.scored == |rows|
    ensures forall i :: 0 <= i < |rows| ==> outcomes[i] == old(Outcome(rows[i], true)) == Outcome(rows[i], true)
  {
    summary, outcomes := BulkScore(rows, true);
    CountNone(outcomes);
    SummaryCounts(outcomes);
    forall i | 0 <= i < |rows| ensures Outcome(rows[i], true) == outcomes[i] {
      assert RowDone(rows[i], true);
    }
  }

  /** With every row scored and no recalculation asked for, nothing is left to score. */
  method ScoreNothing(rows: seq<AssetVulnRow>) returns (summary: Summary)
    requires forall i, j :: 0 <= i < j < |rows| ==> rows[i] != rows[j]
    requires forall i :: 0 <= i < |rows| ==> rows[i].riskScore != None
    modifies rows
    ensures summary.scored == 0 && forall i :: 0 <= i < |rows| ==> unchanged(rows[i])
  {
    ghost var outcomes;
    summary, outcomes := BulkScore(rows, false);
    CountNone(outcomes);
    SummaryCounts(outcomes);
    forall i | 0 <= i < |rows| ensures unchanged(rows[i]) {
      assert RowDone(rows[i], false);
    }
  }

  /** Rescoring what was just scored repeats the summary and scores every row; without the flag nothing is scored. */
  method BulkScoreAgain(rows: seq<AssetVulnRow>) returns (first: Summary, again: Summary, skipped: Summary)
    requires forall i, j :: 0 <= i < j < |rows| ==> rows[i] != rows[j]
    modifies rows
    ensures again == first && first.scored == |rows| && skipped.scored == 0
    ensures forall i :: 0 <= i < |rows| ==> IsScored(rows[i])
  {
    ghost var outcomes, same;
    first, outcomes := Recalculate(rows);
    again, same := Recalculate(rows);
    assert same == outcomes;
    skipped := ScoreNothing(rows);
  }

  // ---------- properties of the score ----------

  /** The recorded lines add up to the eight factors. */
  lemma BreakdownAddsUp(v: Vulnerability, a: Asset, c: Context)
    ensures Total(Breakdown(v, a, c)) == RawScore(v, a, c)
  {
  }

  /** The same finding with one factor set. */
  function WithSeverity(v: Vulnerability, s: Spelled<Severity>): Vulnerability {
    Vulnerability(v.id, s, v.epss, v.kevListed, v.patchAvailable, v.exploitAvailable)
  }

  function WithEpss(v: Vulnerability, epss: Option<int>): Vulnerability {
    Vulnerability(v.id, v.severity, epss, v.kevListed, v.patchAvailable, v.exploitAvailable)
  }

  function WithKev(v: Vulnerability, listed: bool): Vulnerability {
    Vulnerability(v.id, v.severity, v.epss, listed, v.patchAvailable, v.exploitAvailable)
  }

  function WithPatch(v: Vulnerability, available: bool): Vulnerability {
    Vulnerability(v.id, v.severity, v.epss, v.kevListed, available, v.exploitAvailable)
  }

  function WithExposure(a: Asset, e: Spelled<Exposure>): Asset {
    Asset(a.id, a.criticality, e, a.compensatingControls)
  }

  /**
   What each factor is worth, the others being equal; together with a finding worth nothing this fixes the
   sum. Any capitalisation of a name counts as the name.
   */
  lemma SeverityAndExposurePoints(v: Vulnerability, a: Asset, c: Context)
    ensures var none := RawScore(WithSeverity(v, Exactly(NoSeverity)), a, c);
            && RawScore(WithSeverity(v, Exactly(LowSeverity)), a, c) == none + 5
            && RawScore(WithSeverity(v, Exactly(MediumSeverity)), a, c) == none + 10
            && RawScore(WithSeverity(v, Exactly(HighSeverity)), a, c) == none + 20
            && RawScore(WithSeverity(v, Exactly(CriticalSeverity)), a, c) == none + 30
            && RawScore(WithSeverity(v, Missing), a, c) == RawScore(WithSeverity(v, Unknown), a, c) == none + 10
    ensures forall s :: RawScore(WithSeverity(v, OtherCase(s)), a, c) == RawScore(WithSeverity(v, Exactly(s)), a, c)
    ensures var isolated := RawScore(v, WithExposure(a, Exactly(Isolated)), c);
            && RawScore(v, WithExposure(a, Exactly(Intranet)), c) == isolated + 5
            && RawScore(v, WithExposure(a, Exactly(Internet)), c) == isolated + 10
            && RawScore(v, WithExposure(a, Missing), c) == RawScore(v, WithExposure(a, Unknown), c) == isolated
    ensures forall e :: RawScore(v, WithExposure(a, OtherCase(e)), c) == RawScore(v, WithExposure(a, Exactly(e)), c)
  {
  }

  lemma FindingPoints(v: Vulnerability, a: Asset, c: Context, millionths: int)
    ensures RawScore(WithKev(v, true), a, c) == RawScore(WithKev(v, false), a, c) + 20
    ensures RawScore(WithPatch(v, true), a, c) == RawScore(WithPatch(v, false), a, c) + 5
    ensures var points := RawScore(WithEpss(v, Some(millionths)), a, c) - RawScore(WithEpss(v, None), a, c);
            && (millionths >= 0 ==> points * 1_000_000 <= 15 * millionths < (points + 1) * 1_000_000)
            && (millionths < 0 ==> (points - 1) * 1_000_000 < 15 * millionths <= points * 1_000_000)
  {
  }

  lemma AssetPoints(v: Vulnerability, id: int, criticality: int, e: Spelled<Exposure>, mitigated: bool)
    ensures var loaded := Context(false, true, mitigated);
            var a, b := Asset(id, criticality, e, false), Asset(id, 0, e, false);
            && RawScore(v, a, loaded) == RawScore(v, b, loaded) + 3 * criticality
            && RawScore(v, a, Context(true, true, mitigated)) == RawScore(v, a, loaded) + 15
            && RawScore(v, a, Context(true, false, mitigated)) == RawScore(v, a, loaded) + 15
            && RawScore(v, a, Context(false, false, mitigated)) == RawScore(v, a, loaded) - 10
            && RawScore(v, Asset(id, criticality, e, true), loaded) == RawScore(v, a, Context(false, true, false)) - 10
            && RawScore(v, a, Context(false, true, true)) == RawScore(v, a, Context(false, true, false)) - 10
  {
  }

  /** A patchable finding without severity, EPSS or KEV listing on an isolated asset that loads it is worth nothing. */
  lemma NothingScoresNothing(id: int, asset: int, exploit: bool)
    ensures RawScore(Vulnerability(id, Exactly(NoSeverity), None, false, true, exploit),
                     Asset(asset, 0, Exactly(Isolated), false), Context(false, true, false)) == 0
  {
  }

  /** The score is the sum where that lies between 0 and 100, else the nearer end. */
  lemma ScoreMeans(v: Vulnerability, a: Asset, c: Context)
    ensures 0 <= ScoreOf(v, a, c) <= 100
    ensures 0 <= RawScore(v, a, c) <= 100 ==> ScoreOf(v, a, c) == RawScore(v, a, c)
    ensures RawScore(v, a, c) < 0 ==> ScoreOf(v, a, c) == 0
    ensures RawScore(v, a, c) > 100 ==> ScoreOf(v, a, c) == 100
  {
  }

  /** Four bands: from 80, from 60, from 40, and below. */
  lemma LevelMeans(score: int)
    ensures RiskLevel(score) == CRITICAL <==> 80 <= score
    ensures RiskLevel(score) == HIGH <==> 60 <= score < 80
    ensures RiskLevel(score) == MEDIUM <==> 40 <= score < 60
    ensures RiskLevel(score) == LOW <==> score < 40
  {
  }

  /** Four actions, the most urgent that applies. */
  lemma ActionMeans(score: int, v: Vulnerability, a: Asset, executed: bool)
    ensures var action := RecommendedAction(score, v, a, executed);
            var immediate := v.kevListed || executed || score >= 80 || (score >= 60 && a.exposure == Exactly(Internet));
            && (action == PATCH_IMMEDIATELY <==> immediate)
            && (action == PATCH_STANDARD <==> !immediate && (v.exploitAvailable || score >= 40))
            && (action == MONITOR <==> !immediate && !v.exploitAvailable && 20 <= score < 40)
            && (action == ACCEPT_RISK <==> !immediate && !v.exploitAvailable && score < 20)
  {
  }

  /** The optimizer treats a missing runtime record as one of code that is not loaded, and no control as applied. */
  lemma OptimizerScoreMeans(v: Vulnerability, a: Asset, executed: bool, loaded: bool)
    ensures OptimizerScore(v, a, Some(Runtime(executed, loaded))) == ScoreOf(v, a, Context(executed, loaded, false))
    ensures OptimizerScore(v, a, None) == ScoreOf(v, a, Context(false, false, false))
  {
  }

  /** Severity, criticality, exposure and runtime always leave a line, the others exactly when they apply. */
  lemma BreakdownLines(v: Vulnerability, a: Asset, c: Context)
    ensures var f := Breakdown(v, a, c);
            && f.severity.Some? && f.criticality.Some? && f.exposure.Some? && f.runtime.Some?
            && (f.epss.Some? <==> v.epss != None) && (f.kev.Some? <==> v.kevListed)
            && (f.noPatch.Some? <==> !v.patchAvailable)
            && (f.controls.Some? <==> c.mitigated || a.compensatingControls)
  {
  }

  /** The scale NONE, LOW, MEDIUM, HIGH, CRITICAL; missing and unknown severities count as MEDIUM. */
  function SeverityRank(v: Vulnerability): nat {
    match NameOr(v.severity, MediumSeverity)
    case CriticalSeverity => 4
    case HighSeverity => 3
    case MediumSeverity => 2
    case LowSeverity => 1
    case NoSeverity => 0
  }

  /** ISOLATED (also when missing or unknown), INTRANET, INTERNET. */
  function ExposureRank(a: Asset): nat {
    match NameOr(a.exposure, Isolated)
    case Internet => 2
    case Intranet => 1
    case Isolated => 0
  }

  /** Not loaded, loaded, executed. */
  function RuntimeRank(c: Context): nat {
    if c.codeExecuted then 2 else if c.libraryLoaded then 1 else 0
  }

  /** An absent EPSS score counts as zero. */
  function Epss(v: Vulnerability): int {
    if v.epss.Some? then v.epss.value else 0
  }

  /** The second finding is at least as bad as the first on each of the eight factors. */
  ghost predicate NoLessRisky(v: Vulnerability, a: Asset, c: Context, v': Vulnerability, a': Asset, c': Context) {
    && SeverityRank(v) <= SeverityRank(v')
    && Epss(v) <= Epss(v')
    && (v.kevListed ==> v'.kevListed)
    && a.criticality <= a'.criticality
    && ExposureRank(a) <= ExposureRank(a')
    && RuntimeRank(c) <= RuntimeRank(c')
    && (v.patchAvailable ==> v'.patchAvailable)
    && (c'.mitigated || a'.compensatingControls ==> c.mitigated || a.compensatingControls)
  }

  lemma EpssPointsMonotone(v: Vulnerability, v': Vulnerability)
    requires Epss(v) <= Epss(v')
    ensures EpssPoints(v) <= EpssPoints(v')
  {
    assert EpssPoints(v) == Truncate(15 * Epss(v));
    assert EpssPoints(v') == Truncate(15 * Epss(v'));
  }

  lemma RawScoreMonotone(v: Vulnerability, a: Asset, c: Context, v': Vulnerability, a': Asset, c': Context)
    requires NoLessRisky(v, a, c, v', a', c')
    ensures RawScore(v, a, c) <= RawScore(v', a', c')
  {
    EpssPointsMonotone(v, v');
    assert SeverityPoints(v) <= SeverityPoints(v');
    assert ExposurePoints(a) <= ExposurePoints(a');
    assert RuntimePoints(c) <= RuntimePoints(c');
    assert ControlPoints(a, c) <= ControlPoints(a', c');
  }

  /** The score never falls when no factor improves, whatever the EPSS and criticality values are. */
  lemma ScoreIsMonotone(v: Vulnerability, a: Asset, c: Context, v': Vulnerability, a': Asset, c': Context)
    requires NoLessRisky(v, a, c, v', a', c')
    ensures ScoreOf(v, a, c) <= ScoreOf(v', a', c')
    ensures RiskLevel(ScoreOf(v, a, c)).Rank() <= RiskLevel(ScoreOf(v', a', c')).Rank()
  {
    RawScoreMonotone(v, a, c, v', a', c');
  }

  /**
   The action stays at least as urgent, with one exception: the exact spelling "INTERNET" made the first
   finding urgent, the second is spelled otherwise, and nothing else makes it urgent.
   */
  lemma ActionIsMonotoneIff(v: Vulnerability, a: Asset, c: Context, v': Vulnerability, a': Asset, c': Context)
    requires NoLessRisky(v, a, c, v', a', c')
    requires v.exploitAvailable ==> v'.exploitAvailable
    ensures var score, score' := ScoreOf(v, a, c), ScoreOf(v', a', c');
            RecommendedAction(score, v, a, c.codeExecuted).Rank() <= RecommendedAction(score', v', a', c'.codeExecuted).Rank()
            <==> !(a.exposure == Exactly(Internet) && a'.exposure != Exactly(Internet)
                   && 60 <= score && score' < 80 && !v'.kevListed && !c'.codeExecuted)
  {
    ScoreIsMonotone(v, a, c, v', a', c');
  }

  /** The exposure points ignore case while the urgent-action test does not: equal scores, unequal actions. */
  lemma SpellingChangesTheActionIff(v: Vulnerability, a: Asset, c: Context)
    requires a.exposure == Exactly(Internet)
    ensures var a' := Asset(a.id, a.criticality, OtherCase(Internet), a.compensatingControls);
            var score := ScoreOf(v, a, c);
            && ScoreOf(v, a', c) == score
            && (RecommendedAction(score, v, a', c.codeExecuted) != RecommendedAction(score, v, a, c.codeExecuted)
                <==> 60 <= score < 80 && !v.kevListed && !c.codeExecuted)
  {
    var a' := Asset(a.id, a.criticality, OtherCase(Internet), a.compensatingControls);
    ActionIsMonotoneIff(v, a', c, v, a, c);
    ActionIsMonotoneIff(v, a, c, v, a', c);
  }

  /** A critical, likely exploited finding on a fully critical asset that only loads the library scores seventy. */
  lemma SpellingChangesTheAction()
    ensures var v := Vulnerability(0, Exactly(CriticalSeverity), Some(1_000_000), false, true, false);
            var a := Asset(0, 5, Exactly(Internet), false);
            var a' := a.(exposure := OtherCase(Internet));
            var c := Context(false, true, false);
            && ScoreOf(v, a, c) == ScoreOf(v, a', c) == 70
            && RecommendedAction(70, v, a, false) == PATCH_IMMEDIATELY
            && RecommendedAction(70, v, a', false) == PATCH_STANDARD
  {
  }
}
