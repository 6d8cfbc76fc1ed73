/**
 The circuit breaker and the error-rate bookkeeping of the error service
 (backend/services/error_service.py).

 A guarded call has two parts: Admit runs up to the await and keeps the state it read first as
 its snapshot; Settle runs after the awaited function returned or raised. The snapshot is not
 refreshed when Admit moves the breaker from OPEN to HALF_OPEN.
 */
module CircuitBreaker {
  import opened Results
  import opened Sliding

  datatype State = Closed | Open | HalfOpen

  datatype Config = Config(threshold: int, timeout: int, maxProbes: int)

  const DEFAULTS := Config(5, 60, 3)

  /** The dictionary entries of one service; a missing last failure reads as time 0. */
  datatype Breaker = Breaker(state: State, failures: int, lastFailure: int, probes: int)

  const FRESH := Breaker(Closed, 0, 0, 0)

  datatype Refusal = CircuitOpen | ProbesExhausted

  /** Up to the await: the snapshot of an admitted call, or the exception raised. */
  function Admit(b: Breaker, now: int, c: Config): (Breaker, Result<State, Refusal>) {
    match b.state
    case Closed => (b, Ok(Closed))
    case Open =>
      if now - b.lastFailure > c.timeout then (b.(state := HalfOpen, probes := 0), Ok(Open))
      else (b, Err(CircuitOpen))
    case HalfOpen =>
      if b.probes >= c.maxProbes then (b, Err(ProbesExhausted))
      else (b.(probes := b.probes + 1), Ok(HalfOpen))
  }

  /** After the await, for a call that was admitted with this snapshot. */
  function Settle(b: Breaker, snapshot: State, success: bool, now: int, c: Config): Breaker {
    if success then
      if snapshot == HalfOpen then b.(state := Closed, failures := 0)
      else b.(failures := if b.failures - 1 > 0 then b.failures - 1 else 0)
    else
      var b' := b.(failures := b.failures + 1, lastFailure := now);
      if b'.failures >= c.threshold then b'.(state := Open) else b'
  }

  // ---------- the service object ----------

  class ErrorService {
    var circuitStates: map<string, State>
    var circuitFailures: map<string, int>
    var circuitLastFailure: map<string, int>
    var circuitHalfOpenRequests: map<string, int>
    const config: Config

    constructor ()
      ensures config == Config(5, 60, 3) == DEFAULTS
      ensures forall s :: View(s).state == Closed && View(s).failures == View(s).probes == 0
      ensures forall s :: View(s) == FRESH
    {
      config := DEFAULTS;
      circuitStates, circuitFailures, circuitLastFailure, circuitHalfOpenRequests := map[], map[], map[], map[];
    }

    /** What the four dictionaries say about one service; the first, second and fourth have defaults. */
    function View(s: string): Breaker
      reads this
    {
      Breaker(
        if s in circuitStates then circuitStates[s] else Closed,
        if s in circuitFailures then circuitFailures[s] else 0,
        if s in circuitLastFailure then circuitLastFailure[s] else 0,
        if s in circuitHalfOpenRequests then circuitHalfOpenRequests[s] else 0)
    }

    /** The part of call_with_circuit_breaker before the await. */
    method Begin(s: string, now: int) returns (r: Result<State, Refusal>)
      modifies this
      ensures (View(s), r) == Admit(old(View(s)), now, config)
      ensures forall t :: t != s ==> View(t) == old(View(t))
    {
      var state := View(s).state;
      circuitStates := circuitStates[s := state];
      if state == Open {
        var lastFailure := View(s).lastFailure;
        if now - lastFailure > config.timeout {
          circuitStates := circuitStates[s := HalfOpen];
          circuitHalfOpenRequests := circuitHalfOpenRequests[s := 0];
        } else {
          return Err(CircuitOpen);
        }
      }
      if state == HalfOpen {
        var probes := View(s).probes;
        circuitHalfOpenRequests := circuitHalfOpenRequests[s := probes];
        if probes >= config.maxProbes {
          return Err(ProbesExhausted);
        }
        circuitHalfOpenRequests := circuitHalfOpenRequests[s := probes + 1];
      }
      return Ok(state);
    }

    /** The part after the await. */
    method End(s: string, snapshot: State, success: bool, now: int)
      modifies this
      ensures View(s) == Settle(old(View(s)), snapshot, success, now, config)
      ensures forall t :: t != s ==> View(t) == old(View(t))
    {
      var failures := View(s).failures;
      if success {
        if snapshot == HalfOpen {
          circuitStates := circuitStates[s := Closed];
          circuitFailures := circuitFailures[s := 0];
        } else {
          circuitFailures := circuitFailures[s := if failures - 1 > 0 then failures - 1 else 0];
        }
      } else {
        circuitFailures := circuitFailures[s := failures + 1];
        circuitLastFailure := circuitLastFailure[s := now];
        if failures + 1 >= config.threshold {
          circuitStates := circuitStates[s := Open];
        }
      }
    }

    /** A call during which no other call for the service is in flight. */
    method Call(s: string, now: int, success: bool, doneAt: int) returns (r: Result<State, Refusal>)
      modifies this
      ensures View(s) == Sequential(old(View(s)), Visit(now, success, doneAt), config)
      ensures r == Admit(old(View(s)), now, config).1
      ensures forall t :: t != s ==> View(t) == old(View(t))
    {
      r := Begin(s, now);
      if r.Ok? {
        End(s, r.value, success, doneAt);
      }
    }
  }

  // ---------- sequential runs ----------

  /** A call: when it starts, whether the function succeeds if it is called, and when it is done. */
  datatype Visit = Visit(start: int, success: bool, done: int)

  function Sequential(b: Breaker, v: Visit, c: Config): Breaker {
    var (b', r) := Admit(b, v.start, c);
    if r.Ok? then Settle(b', r.value, v.success, v.done, c) else b'
  }

  function Run(b: Breaker, visits: seq<Visit>, c: Config): Breaker {
    if visits == [] then b
    else Sequential(Run(b, visits[..|visits| - 1], c), visits[|visits| - 1], c)
  }

  ghost predicate Sane(c: Config) {
    c.threshold >= 1 && c.maxProbes >= 1
  }

  /** What holds between the calls of a sequential run. */
  ghost predicate Consistent(b: Breaker, c: Config) {
    && b.failures >= 0
    && (b.state == Closed ==> b.failures < c.threshold)
    && (b.state == Open ==> b.failures >= c.threshold)
    && (b.state == HalfOpen ==> b.failures >= c.threshold - 1 && b.probes == 0)
  }

  lemma {:induction false} RunsAreConsistent(b: Breaker, visits: seq<Visit>, c: Config)
    requires Sane(c) && Consistent(b, c)
    ensures Consistent(Run(b, visits, c), c)
  {
    if visits != [] {
      RunsAreConsistent(b, visits[..|visits| - 1], c);
    }
  }

  /** In a sequential run the quota on test requests never refuses a call, and every failed probe reopens. */
  lemma ProbesNeverExhausted(visits: seq<Visit>, v: Visit, c: Config)
    requires Sane(c)
    ensures var b := Run(FRESH, visits, c);
            && Admit(b, v.start, c).1 != Err(ProbesExhausted)
            && (b.state != Closed && Admit(b, v.start, c).1.Ok? && !v.success ==> Sequential(b, v, c).state == Open)
  {
    RunsAreConsistent(FRESH, visits, c);
  }

  /** From an open breaker, two successive successes once the timeout has passed restore CLOSED with count 0. */
  lemma TwoSuccessesClose(visits: seq<Visit>, v: Visit, w: Visit, c: Config)
    requires Sane(c)
    requires Run(FRESH, visits, c).state == Open
    requires v.success && w.success && v.start - Run(FRESH, visits, c).lastFailure > c.timeout
    ensures Sequential(Run(FRESH, visits, c), v, c).state == HalfOpen
    ensures var b := Run(FRESH, visits + [v, w], c);
            b.state == Closed && b.failures == 0
  {
    RunsAreConsistent(FRESH, visits, c);
    assert (visits + [v, w])[..|visits| + 1] == visits + [v];
    assert (visits + [v])[..|visits|] == visits;
  }

  // ---------- the decaying counter ----------

  /** Failures minus successes. */
  function Net(h: seq<bool>): int {
    if h == [] then 0 else Net(h[..|h| - 1]) + if h[|h| - 1] then -1 else 1
  }

  /** The outcomes of a run of calls. */
  function Outcomes(visits: seq<Visit>): (h: seq<bool>)
    ensures |h| == |visits|
  {
    if visits == [] then [] else Outcomes(visits[..|visits| - 1]) + [visits[|visits| - 1].success]
  }

  /** m is the largest excess of failures over successes in any stretch that ends now, the empty one included. */
  ghost predicate IsPeak(h: seq<bool>, m: int) {
    && (forall i :: 0 <= i <= |h| ==> Net(h[i..]) <= m)
    && (exists i :: 0 <= i <= |h| && Net(h[i..]) == m)
  }

  lemma NetOfTail(h: seq<bool>, x: bool, i: nat)
    requires i <= |h|
    ensures Net((h + [x])[i..]) == Net(h[i..]) + if x then -1 else 1
  {
    assert (h + [x])[i..] == h[i..] + [x];
    assert (h[i..] + [x])[..|h[i..]|] == h[i..];
  }

  lemma PeakStep(h: seq<bool>, m: int, x: bool)
    requires IsPeak(h, m)
    ensures IsPeak(h + [x], if m + (if x then -1 else 1) > 0 then m + (if x then -1 else 1) else 0)
  {
    var m' := if m + (if x then -1 else 1) > 0 then m + (if x then -1 else 1) else 0;
    forall i | 0 <= i <= |h + [x]| ensures Net((h + [x])[i..]) <= m' {
      if i <= |h| {
        NetOfTail(h, x, i);
      }
    }
    var i :| 0 <= i <= |h| && Net(h[i..]) == m;
    NetOfTail(h, x, i);
    var n := |h + [x]|;
    assert Net((h + [x])[n..]) == 0;
  }

  /** No stretch of the history has an excess of failures that reaches the threshold. */
  ghost predicate Calm(h: seq<bool>, c: Config) {
    forall i, j :: 0 <= i <= j <= |h| ==> Net(h[i..j]) < c.threshold
  }

  lemma CalmStep(h: seq<bool>, x: bool, m: int, c: Config)
    requires IsPeak(h + [x], m)
    ensures Calm(h + [x], c) <==> Calm(h, c) && m < c.threshold
  {
    var g := h + [x];
    forall i, j | 0 <= i <= j <= |h| ensures g[i..j] == h[i..j] {
    }
    forall i | 0 <= i <= |g| ensures g[i..|g|] == g[i..] {
    }
    if Calm(g, c) {
      forall i, j | 0 <= i <= j <= |h| ensures Net(h[i..j]) < c.threshold {
        assert Net(g[i..j]) < c.threshold;
      }
      var i :| 0 <= i <= |g| && Net(g[i..]) == m;
      assert Net(g[i..|g|]) < c.threshold;
    }
    if Calm(h, c) && m < c.threshold {
      forall i, j | 0 <= i <= j <= |g| ensures Net(g[i..j]) < c.threshold {
        if j <= |h| {
          assert Net(h[i..j]) < c.threshold;
        }
      }
    }
  }

  /**
   From a reset on, while no stretch of outcomes reaches the threshold the breaker is closed and
   its counter is the peak of the history; the first outcome that completes such a stretch opens it.
   */
  lemma {:induction false} CounterIsPeak(b: Breaker, visits: seq<Visit>, c: Config)
    requires Sane(c) && b.state == Closed && b.failures == 0
    ensures Calm(Outcomes(visits), c) ==>
              Run(b, visits, c).state == Closed && IsPeak(Outcomes(visits), Run(b, visits, c).failures)
    ensures visits != [] && Calm(Outcomes(visits[..|visits| - 1]), c) && !Calm(Outcomes(visits), c) ==>
              Run(b, visits, c).state == Open
  {
    if visits == [] {
      assert Net(Outcomes(visits)[0..]) == 0;
    } else {
      var before, x := visits[..|visits| - 1], visits[|visits| - 1].success;
      CounterIsPeak(b, before, c);
      var h := Outcomes(before);
      if Calm(h, c) {
        var n := Run(b, before, c).failures;
        var m := if n + (if x then -1 else 1) > 0 then n + (if x then -1 else 1) else 0;
        PeakStep(h, n, x);
        PeakBounds(h, n, c);
        CalmStep(h, x, m, c);
      } else {
        CalmPrefix(h, x, c);
      }
    }
  }

  lemma PeakBounds(h: seq<bool>, m: int, c: Config)
    requires IsPeak(h, m) && Calm(h, c)
    ensures 0 <= m < c.threshold
  {
    assert Net(h[|h|..]) == 0;
    var i :| 0 <= i <= |h| && Net(h[i..]) == m;
    assert h[i..|h|] == h[i..];
  }

  lemma CalmPrefix(h: seq<bool>, x: bool, c: Config)
    ensures Calm(h + [x], c) ==> Calm(h, c)
  {
    if Calm(h + [x], c) {
      forall i, j | 0 <= i <= j <= |h| ensures Net(h[i..j]) < c.threshold {
        assert (h + [x])[i..j] == h[i..j];
      }
    }
  }

  // ---------- overlapping calls ----------

  /** A step of an interleaved run: a call starts, or the i-th call in flight finishes. */
  datatype Step = Start(now: int) | Finish(i: nat, success: bool, now: int)

  /** The breaker and the snapshots of the calls in flight. */
  datatype World = World(b: Breaker, inFlight: seq<State>)

  /** What a step did, as far as probing is concerned. */
  datatype Event = Moved | Probed | Other

  function Next(w: World, s: Step, c: Config): (World, Event) {
    match s
    case Start(now) =>
      var (b, r) := Admit(w.b, now, c);
      if r.Err? then (World(b, w.inFlight), Other)
      else (World(b, w.inFlight + [r.value]),
            match r.value case Closed => Other case Open => Moved case HalfOpen => Probed)
    case Finish(i, success, now) =>
      if i >= |w.inFlight| then (w, Other)
      else (World(Settle(w.b, w.inFlight[i], success, now, c), w.inFlight[..i] + w.inFlight[i + 1..]), Other)
  }

  /** The world after an interleaved run, and the event of each step. */
  function Interleave(w: World, steps: seq<Step>, c: Config): (r: (World, seq<Event>))
    ensures |r.1| == |steps|
  {
    if steps == [] then (w, [])
    else
      var (w', log) := Interleave(w, steps[..|steps| - 1], c);
      var (w'', e) := Next(w', steps[|steps| - 1], c);
      (w'', log + [e])
  }

  function CountProbes(log: seq<Event>): nat {
    if log == [] then 0 else CountProbes(log[..|log| - 1]) + if log[|log| - 1] == Probed then 1 else 0
  }

  /** The log since the last move to HALF_OPEN, that move excluded. */
  function SinceMove(log: seq<Event>): seq<Event> {
    if log == [] then []
    else if log[|log| - 1] == Moved then []
    else SinceMove(log[..|log| - 1]) + [log[|log| - 1]]
  }

  lemma LogStep(log: seq<Event>, e: Event)
    ensures SinceMove(log + [e]) == if e == Moved then [] else SinceMove(log) + [e]
    ensures CountProbes(SinceMove(log + [e]))
            == if e == Moved then 0 else CountProbes(SinceMove(log)) + if e == Probed then 1 else 0
  {
    assert (log + [e])[..|log|] == log;
    assert (SinceMove(log) + [e])[..|SinceMove(log)|] == SinceMove(log);
  }

  lemma CounterStep(w: World, s: Step, c: Config)
    requires Sane(c) && 0 <= w.b.probes <= c.maxProbes
    ensures var (w', e) := Next(w, s, c);
            && 0 <= w'.b.probes <= c.maxProbes
            && w'.b.probes == if e == Moved then 0 else w.b.probes + if e == Probed then 1 else 0
  {
  }

  /** Whatever overlaps, the counter equals the probes admitted since the last move and respects the quota. */
  lemma {:induction false} QuotaHolds(steps: seq<Step>, c: Config)
    requires Sane(c)
    ensures Interleave(World(FRESH, []), steps, c).0.b.probes
            == CountProbes(SinceMove(Interleave(World(FRESH, []), steps, c).1))
    ensures 0 <= Interleave(World(FRESH, []), steps, c).0.b.probes <= c.maxProbes
  {
    if steps != [] {
      var before := steps[..|steps| - 1];
      QuotaHolds(before, c);
      var (w, log) := Interleave(World(FRESH, []), before, c);
      CounterStep(w, steps[|steps| - 1], c);
      LogStep(log, Next(w, steps[|steps| - 1], c).1);
    }
  }

  lemma {:induction false} SinceMoveOfStretch(log: seq<Event>, i: nat)
    requires i < |log| && log[i] == Moved && forall k :: i < k < |log| ==> log[k] != Moved
    ensures SinceMove(log) == log[i + 1..]
  {
    if i == |log| - 1 {
      assert log[i + 1..] == [];
    } else {
      SinceMoveOfStretch(log[..|log| - 1], i);
      assert log[i + 1..] == log[..|log| - 1][i + 1..] + [log[|log| - 1]];
    }
  }

  lemma {:induction false} InterleavePrefix(w: World, steps: seq<Step>, c: Config, n: nat)
    requires n <= |steps|
    ensures Interleave(w, steps[..n], c).1 == Interleave(w, steps, c).1[..n]
  {
    if steps != [] && n < |steps| {
      InterleavePrefix(w, steps[..|steps| - 1], c, n);
      assert steps[..|steps| - 1][..n] == steps[..n];
    } else if steps != [] {
      InterleavePrefix(w, steps[..|steps| - 1], c, n - 1);
      assert steps[..n] == steps;
    }
  }

  /**
   Between a move to HALF_OPEN and the next one at most maxProbes calls are admitted besides the
   one that made the move, in every interleaving.
   */
  lemma ProbesPerMove(steps: seq<Step>, c: Config, i: nat, j: nat)
    requires Sane(c) && i < j <= |steps|
    requires Interleave(World(FRESH, []), steps, c).1[i] == Moved
    requires forall k :: i < k < j ==> Interleave(World(FRESH, []), steps, c).1[k] != Moved
    ensures CountProbes(Interleave(World(FRESH, []), steps, c).1[i + 1..j]) <= c.maxProbes
  {
    var log := Interleave(World(FRESH, []), steps, c).1;
    InterleavePrefix(World(FRESH, []), steps, c, j);
    QuotaHolds(steps[..j], c);
    SinceMoveOfStretch(log[..j], i);
    assert log[..j][i + 1..] == log[i + 1..j];
  }

  // ---------- an open breaker refuses until the timeout has passed ----------

  /** When a call in flight last finished with an exception. */
  ghost function LastFailureAt(w: World, steps: seq<Step>, c: Config): Option<int> {
    if steps == [] then None
    else
      var before, s := steps[..|steps| - 1], steps[|steps| - 1];
      if s.Finish? && !s.success && s.i < |Interleave(w, before, c).0.inFlight| then Some(s.now)
      else LastFailureAt(w, before, c)
  }

  lemma NextKeepsLastFailure(w: World, s: Step, last: Option<int>, c: Config)
    requires w.b.lastFailure == (if last.Some? then last.value else 0) && (w.b.state == Open ==> last.Some?)
    ensures var failed := s.Finish? && !s.success && s.i < |w.inFlight|;
            var last' := if failed then Some(s.now) else last;
            var b := Next(w, s, c).0.b;
            b.lastFailure == (if last'.Some? then last'.value else 0) && (b.state == Open ==> last'.Some?)
  {
  }

  /** The stored time is that of the last failure, and only a failure opens the breaker. */
  lemma {:induction false} OpenSinceFailure(steps: seq<Step>, c: Config)
    ensures var b, last := Interleave(World(FRESH, []), steps, c).0.b, LastFailureAt(World(FRESH, []), steps, c);
            b.lastFailure == (if last.Some? then last.value else 0) && (b.state == Open ==> last.Some?)
  {
    if steps != [] {
      var before := steps[..|steps| - 1];
      OpenSinceFailure(before, c);
      NextKeepsLastFailure(Interleave(World(FRESH, []), before, c).0, steps[|steps| - 1],
                           LastFailureAt(World(FRESH, []), before, c), c);
    }
  }

  /** From an open breaker: nothing changes within the timeout of the last failure, a probe starts after it. */
  lemma StartWhenOpen(w: World, last: int, now: int, c: Config)
    requires w.b.state == Open && w.b.lastFailure == last
    ensures now - last <= c.timeout ==> Next(w, Start(now), c) == (w, Other)
    ensures now - last > c.timeout ==>
              Next(w, Start(now), c).0.b.state == HalfOpen && Next(w, Start(now), c).0.inFlight == w.inFlight + [Open]
              && Next(w, Start(now), c).0.b.probes == 0 && Next(w, Start(now), c).1 == Moved
  {
  }

  /**
   In every interleaving an open breaker has seen a failure, and refuses every call until more than the
   timeout has passed since the last one; the first call after that is admitted and makes it half-open.
   */
  lemma OpenRefusesUntilTimeout(steps: seq<Step>, now: int, c: Config)
    requires Interleave(World(FRESH, []), steps, c).0.b.state == Open
    ensures LastFailureAt(World(FRESH, []), steps, c).Some?
    ensures var w, last := Interleave(World(FRESH, []), steps, c).0, LastFailureAt(World(FRESH, []), steps, c).value;
            var n := Interleave(World(FRESH, []), steps + [Start(now)], c).0;
            if now - last <= c.timeout then n == w
            else n.inFlight == w.inFlight + [Open] && n.b.state == HalfOpen
  {
    OpenSinceFailure(steps, c);
    Extend(World(FRESH, []), steps, Start(now), c);
    StartWhenOpen(Interleave(World(FRESH, []), steps, c).0, LastFailureAt(World(FRESH, []), steps, c).value, now, c);
  }

  // ---------- when a half-open breaker can recover ----------

  /** A half-open breaker with nothing in flight and no probes left refuses every call from then on. */
  lemma {:induction false} ExhaustedIsFinal(w: World, steps: seq<Step>, c: Config)
    requires w.inFlight == [] && w.b.state == HalfOpen && w.b.probes >= c.maxProbes
    ensures Interleave(w, steps, c).0 == w
    ensures forall k :: 0 <= k < |Interleave(w, steps, c).1| ==> Interleave(w, steps, c).1[k] == Other
  {
    if steps != [] {
      ExhaustedIsFinal(w, steps[..|steps| - 1], c);
    }
  }

  /** What keeps a half-open breaker from closing: no probe left, none under way, and too few late calls to reopen it. */
  ghost predicate Stuck(w: World, c: Config) {
    && w.b.state == HalfOpen && w.b.probes >= c.maxProbes && w.b.failures >= 0
    && HalfOpen !in w.inFlight
    && (w.inFlight != [] ==> w.b.failures + |w.inFlight| < c.threshold)
  }

  lemma StuckStep(w: World, s: Step, c: Config)
    requires Stuck(w, c)
    ensures Stuck(Next(w, s, c).0, c)
  {
    if s.Finish? && s.i < |w.inFlight| {
      assert w.inFlight[s.i] in w.inFlight;
    }
  }

  lemma {:induction false} StuckStays(w: World, steps: seq<Step>, c: Config)
    requires Stuck(w, c)
    ensures Stuck(Interleave(w, steps, c).0, c)
  {
    if steps != [] {
      StuckStays(w, steps[..|steps| - 1], c);
      StuckStep(Interleave(w, steps[..|steps| - 1], c).0, steps[|steps| - 1], c);
    }
  }

  lemma {:induction false} InterleaveConcat(w: World, s: seq<Step>, t: seq<Step>, c: Config)
    ensures Interleave(w, s + t, c).0 == Interleave(Interleave(w, s, c).0, t, c).0
  {
    if t == [] {
      assert s + t == s;
    } else {
      InterleaveConcat(w, s, t[..|t| - 1], c);
      assert (s + t)[..|s + t| - 1] == s + t[..|t| - 1];
    }
  }

  lemma Once(w: World, s: Step, c: Config)
    ensures Interleave(w, [s], c).0 == Next(w, s, c).0
  {
    Extend(w, [], s, c);
    assert [] + [s] == [s];
  }

  lemma Twice(w: World, s: Step, t: Step, c: Config)
    ensures Interleave(w, [s, t], c).0 == Next(Next(w, s, c).0, t, c).0
  {
    Once(w, s, c);
    Extend(w, [s], t, c);
    assert [s] + [t] == [s, t];
  }

  /** A probe that is admitted and succeeds closes the breaker. */
  lemma FreshProbeCloses(w: World, c: Config) returns (steps: seq<Step>)
    requires w.b.state == HalfOpen && w.b.probes < c.maxProbes
    ensures Interleave(w, steps, c).0.b.state == Closed
  {
    steps := [Start(0), Finish(|w.inFlight|, true, 0)];
    Twice(w, Start(0), Finish(|w.inFlight|, true, 0), c);
  }

  /** An open breaker moves to half-open after its timeout, with its probes renewed. */
  lemma OpenCloses(w: World, c: Config) returns (steps: seq<Step>)
    requires Sane(c) && w.b.state == Open
    ensures Interleave(w, steps, c).0.b.state == Closed
  {
    var late := Start(w.b.lastFailure + c.timeout + 1);
    var w' := Next(w, late, c).0;
    Once(w, late, c);
    var rest := FreshProbeCloses(w', c);
    InterleaveConcat(w, [late], rest, c);
    steps := [late] + rest;
  }

  /** Enough late failures reopen it. */
  lemma {:induction false} LateFailuresOpen(w: World, c: Config) returns (steps: seq<Step>)
    requires w.inFlight != [] && w.b.failures + |w.inFlight| >= c.threshold
    ensures Interleave(w, steps, c).0.b.state == Open
    decreases |w.inFlight|
  {
    var fail := Finish(0, false, 0);
    var w' := Next(w, fail, c).0;
    Once(w, fail, c);
    assert |w'.inFlight| == |w.inFlight| - 1 && w'.b.failures == w.b.failures + 1;
    if w'.b.failures >= c.threshold {
      steps := [fail];
    } else {
      var rest := LateFailuresOpen(w', c);
      InterleaveConcat(w, [fail], rest, c);
      steps := [fail] + rest;
    }
  }

  ghost predicate CanClose(w: World, c: Config) {
    exists steps :: Interleave(w, steps, c).0.b.state == Closed
  }

  lemma UnstuckCloses(w: World, c: Config)
    requires Sane(c) && w.b.state == HalfOpen && w.b.failures >= 0 && !Stuck(w, c)
    ensures CanClose(w, c)
  {
    if w.b.probes < c.maxProbes {
      var steps := FreshProbeCloses(w, c);
    } else if i :| 0 <= i < |w.inFlight| && w.inFlight[i] == HalfOpen {
      Once(w, Finish(i, true, 0), c);
    } else {
      var first := LateFailuresOpen(w, c);
      var rest := OpenCloses(Interleave(w, first, c).0, c);
      InterleaveConcat(w, first, rest, c);
    }
  }

  /**
   Some continuation closes a half-open breaker exactly when a probe is left, a probe is under way, or
   enough calls are under way to reopen it by failing.
   */
  lemma RecoversIff(w: World, c: Config)
    requires Sane(c) && w.b.state == HalfOpen && w.b.failures >= 0
    ensures CanClose(w, c)
       <==> w.b.probes < c.maxProbes || HalfOpen in w.inFlight
            || (w.inFlight != [] && w.b.failures + |w.inFlight| >= c.threshold)
  {
    if Stuck(w, c) {
      forall steps ensures Interleave(w, steps, c).0.b.state != Closed {
        StuckStays(w, steps, c);
      }
    } else {
      UnstuckCloses(w, c);
    }
  }

  /** With nothing in flight it is the quota alone that decides. */
  lemma IdleRecoversIff(w: World, c: Config)
    requires w.inFlight == [] && w.b.state == HalfOpen
    ensures CanClose(w, c) <==> w.b.probes < c.maxProbes
  {
    if w.b.probes < c.maxProbes {
      var steps := FreshProbeCloses(w, c);
    } else {
      forall steps ensures Interleave(w, steps, c).0.b.state != Closed {
        ExhaustedIsFinal(w, steps, c);
      }
    }
  }

  lemma Extend(w: World, steps: seq<Step>, s: Step, c: Config)
    ensures Interleave(w, steps + [s], c).0 == Next(Interleave(w, steps, c).0, s, c).0
  {
    assert (steps + [s])[..|steps|] == steps;
  }

  function Copies(n: nat): (r: seq<State>)
    ensures |r| == n && forall i :: 0 <= i < n ==> r[i] == Closed
  {
    if n == 0 then [] else [Closed] + Copies(n - 1)
  }

  lemma MoreCopies(n: nat)
    ensures Copies(n) + [Closed] == Copies(n + 1)
    ensures Copies(n + 1)[..0] + Copies(n + 1)[1..] == Copies(n)
  {
  }

  /** Ten calls start while the breaker is closed. */
  lemma TenStart() returns (steps: seq<Step>)
    ensures Interleave(World(FRESH, []), steps, DEFAULTS).0 == World(FRESH, Copies(10))
  {
    var c, w0 := DEFAULTS, World(FRESH, []);
    steps := [];
    for i := 0 to 10
      invariant Interleave(w0, steps, c).0 == World(FRESH, Copies(i))
    {
      Extend(w0, steps, Start(0), c);
      MoreCopies(i);
      steps := steps + [Start(0)];
    }
  }

  lemma OneFails(failures: nat, n: nat)
    requires failures < 5 && n > 0
    ensures Next(World(Breaker(Closed, failures, 0, 0), Copies(n)), Finish(0, false, 0), DEFAULTS).0
            == World(Breaker(if failures == 4 then Open else Closed, failures + 1, 0, 0), Copies(n - 1))
  {
    MoreCopies(n - 1);
  }

  /** Five of them fail and open it. */
  lemma FiveFail() returns (steps: seq<Step>)
    ensures Interleave(World(FRESH, Copies(10)), steps, DEFAULTS).0 == World(Breaker(Open, 5, 0, 0), Copies(5))
  {
    var c, w0 := DEFAULTS, World(FRESH, Copies(10));
    steps := [];
    for i := 0 to 5
      invariant Interleave(w0, steps, c).0
                == World(Breaker(if i == 5 then Open else Closed, i, 0, 0), Copies(10 - i))
    {
      Extend(w0, steps, Finish(0, false, 0), c);
      OneFails(i, 10 - i);
      steps := steps + [Finish(0, false, 0)];
    }
  }

  /** The other five succeed late and bring the count back to zero. */
  lemma FiveSucceed() returns (steps: seq<Step>)
    ensures Interleave(World(Breaker(Open, 5, 0, 0), Copies(5)), steps, DEFAULTS).0 == World(Breaker(Open, 0, 0, 0), [])
  {
    var c, w0 := DEFAULTS, World(Breaker(Open, 5, 0, 0), Copies(5));
    steps := [];
    for i := 0 to 5
      invariant Interleave(w0, steps, c).0 == World(Breaker(Open, 5 - i, 0, 0), Copies(5 - i))
    {
      Extend(w0, steps, Finish(0, true, 0), c);
      MoreCopies(4 - i);
      steps := steps + [Finish(0, true, 0)];
    }
  }

  /** After the timeout three failed probes neither reopen it nor leave a probe. */
  lemma ThreeProbesFail() returns (steps: seq<Step>)
    ensures Interleave(World(Breaker(Open, 0, 0, 0), []), steps, DEFAULTS).0 == World(Breaker(HalfOpen, 3, 61, 3), [])
  {
    var c, w0 := DEFAULTS, World(Breaker(Open, 0, 0, 0), []);
    steps := [Start(61), Finish(0, true, 61)];
    Twice(w0, Start(61), Finish(0, true, 61), c);
    var last := 0;
    for i := 0 to 3
      invariant last == if i == 0 then 0 else 61
      invariant Interleave(w0, steps, c).0 == World(Breaker(HalfOpen, i, last, i), [])
    {
      Extend(w0, steps, Start(61), c);
      steps := steps + [Start(61)];
      Extend(w0, steps, Finish(0, false, 61), c);
      steps := steps + [Finish(0, false, 61)];
      last := 61;
    }
  }

  /**
   With the default limits, ten overlapping calls reach the state ExhaustedIsFinal speaks of:
   five fail and open the breaker, the other five succeed late and bring the count back to
   zero, and after the timeout three failed probes neither reopen it nor leave a probe.
   */
  lemma ExhaustionIsReachable() returns (steps: seq<Step>)
    ensures Interleave(World(FRESH, []), steps, DEFAULTS).0 == World(Breaker(HalfOpen, 3, 61, 3), [])
  {
    var w0, c := World(FRESH, []), DEFAULTS;
    steps := TenStart();
    var more := FiveFail();
    InterleaveConcat(w0, steps, more, c);
    steps := steps + more;
    more := FiveSucceed();
    InterleaveConcat(w0, steps, more, c);
    steps := steps + more;
    more := ThreeProbesFail();
    InterleaveConcat(w0, steps, more, c);
    steps := steps + more;
  }

  // ---------- error rates ----------

  /** Five minutes. */
  const RATE_WINDOW := 300

  /** The stored timestamps of a group after errors at these times. */
  function Tracked(times: seq<int>): seq<int> {
    if times == [] then []
    else
      var now := times[|times| - 1];
      After(Tracked(times[..|times| - 1]) + [now], now - RATE_WINDOW)
  }

  class ErrorTracker {
    var errorCounts: map<string, int>
    var errorTimestamps: map<string, seq<int>>

    function Count(key: string): int reads this { if key in errorCounts then errorCounts[key] else 0 }

    function Stamps(key: string): seq<int> reads this { if key in errorTimestamps then errorTimestamps[key] else [] }

    /** The bookkeeping of track_error. */
    method Track(key: string, now: int)
      modifies this
      ensures Count(key) == old(Count(key)) + 1
      ensures Stamps(key) == After(old(Stamps(key)) + [now], now - RATE_WINDOW)
      ensures forall k :: k != key ==> Count(k) == old(Count(k)) && Stamps(k) == old(Stamps(k))
    {
      errorCounts := errorCounts[key := Count(key) + 1];
      errorTimestamps := errorTimestamps[key := Stamps(key) + [now]];
      var cutoff := now - RATE_WINDOW;
      errorTimestamps := errorTimestamps[key := After(errorTimestamps[key], cutoff)];
    }

    /** Errors per second over the given window. */
    method CalculateErrorRate(key: string, now: int, windowSeconds: int) returns (rate: real)
      ensures windowSeconds == 0 ==> rate == 0.0
      ensures windowSeconds != 0 ==>
                rate * windowSeconds as real == |After(Stamps(key), now - windowSeconds)| as real
    {
      var ts, cutoff, recent := Stamps(key), now - windowSeconds, 0;
      for i := 0 to |ts|
        invariant recent == |After(ts[..i], cutoff)|
      {
        AfterAppend(ts[..i], ts[i], cutoff);
        assert ts[..i + 1] == ts[..i] + [ts[i]];
        if ts[i] > cutoff {
          recent := recent + 1;
        }
      }
      assert ts[..|ts|] == ts;
      rate := if windowSeconds == 0 then 0.0 else recent as real / windowSeconds as real;
    }
  }

  lemma TrackStep(stored: seq<int>, before: seq<int>, last: int, now: int)
    requires stored == After(before, last - RATE_WINDOW) && last <= now
    ensures After(stored + [now], now - RATE_WINDOW) == After(before + [now], now - RATE_WINDOW)
  {
    AfterAppend(stored, now, now - RATE_WINDOW);
    AfterAfter(before, last - RATE_WINDOW, now - RATE_WINDOW);
    AfterAppend(before, now, now - RATE_WINDOW);
  }

  lemma TrackFirst(now: int)
    ensures Tracked([now]) == After([now], now - RATE_WINDOW)
  {
    assert [now][..0] == [] && [] + [now] == [now];
  }

  lemma TrackNext(before: seq<int>, now: int)
    ensures Tracked(before + [now]) == After(Tracked(before) + [now], now - RATE_WINDOW)
  {
    assert (before + [now])[..|before|] == before;
  }

  /** With a clock that does not go back, the stored list is the whole history cut to the last window. */
  lemma {:induction false} TrackedIsRecentHistory(times: seq<int>)
    requires Nondecreasing(times)
    ensures times != [] ==> Tracked(times) == After(times, times[|times| - 1] - RATE_WINDOW)
  {
    if |times| == 1 {
      TrackFirst(times[0]);
      assert times == [times[0]];
    } else if |times| > 1 {
      var before, now := times[..|times| - 1], times[|times| - 1];
      assert times == before + [now];
      TrackedIsRecentHistory(before);
      TrackNext(before, now);
      TrackStep(Tracked(before), before, before[|before| - 1], now);
    }
  }

  /** A rate asked at this time counts every error of the asked window: those after its start, up to now. */
  ghost predicate RateIsExact(times: seq<int>, now: int, window: int) {
    Nondecreasing(times) && (times != [] ==> times[|times| - 1] <= now) ==>
      |After(Tracked(times), now - window)| == InInterval(times, now - window, now)
  }

  /** Rates are exact for every history and moment exactly when the window asked for is at most the stored one. */
  lemma RatesAreExactIff(window: int)
    ensures (forall times: seq<int>, now: int :: RateIsExact(times, now, window)) <==> window <= 300
  {
    if window <= RATE_WINDOW {
      forall times: seq<int>, now: int ensures RateIsExact(times, now, window) {
        if Nondecreasing(times) && times != [] && times[|times| - 1] <= now {
          TrackedIsRecentHistory(times);
          AfterAfter(times, times[|times| - 1] - RATE_WINDOW, now - window);
        }
        if Nondecreasing(times) && (times != [] ==> times[|times| - 1] <= now) {
          IntervalIsAfter(times, now - window, now);
        }
      }
    } else {
      LongWindowUndercounts(window);
    }
  }

  lemma FirstOfTwoIsForgotten()
    ensures Tracked([0, 300]) == [300]
  {
    TrackedIsRecentHistory([0, 300]);
    assert [0, 300] == [0] + [300] && [0] == [] + [0];
    AfterAppend([], 0, 0);
    AfterAppend([0], 300, 0);
  }

  /** Two errors exactly one stored window apart: the first is forgotten although a longer window asks for it. */
  lemma LongWindowUndercounts(window: int)
    requires window > 300
    ensures !RateIsExact([0, 300], 300, window)
  {
    FirstOfTwoIsForgotten();
    AfterMembers([300], 300 - window);
    IntervalAppend([], 0, 300 - window, 300);
    IntervalAppend([0], 300, 300 - window, 300);
    assert [0, 300] == [0] + [300] && [0] == [] + [0];
    assert InInterval([0, 300], 300 - window, 300) == 2;
  }
}
