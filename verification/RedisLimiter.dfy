/**
 The Redis-backed sliding-window limiter (backend/services/rate_limiter.py) as a two-step
 protocol: one pipeline reads the clock, prunes and counts; a second command adds the
 timestamp and renews the key's expiry. Times are whole microseconds. A sorted-set member is
 the printed timestamp, so a set of timestamps stands for the sorted set.
 */
module RedisLimiter {
  import opened Results
  import opened Sliding
  import opened Sorting

  /** The sorted set of one key, and the moment the server drops the key. */
  datatype Entry = Entry(stamps: set<int>, expiry: Option<int>)

  const EMPTY := Entry({}, None)

  /** The server forgets a key whose time is up. */
  function Live(e: Entry, now: int): Entry {
    if e.expiry.Some? && e.expiry.value <= now then EMPTY else e
  }

  /** ZREMRANGEBYSCORE from 0 to now - w, on what is still there. */
  function Pruned(e: Entry, now: int, w: int): Entry {
    var l := Live(e, now);
    l.(stamps := set t | t in l.stamps && !(0 <= t <= now - w))
  }

  /** ZADD of the caller's timestamp, then EXPIRE a minute after the window. */
  function Added(e: Entry, stamp: int, now: int, w: int): Entry {
    Entry(Live(e, now).stamps + {stamp}, Some(now + w + 60_000_000))
  }

  /** What goes wrong in a call, if anything. */
  datatype Fault = NoFault | NoClient | AtPipeline | AtAdd | AtExpire

  class RateLimiter {
    var store: map<string, Entry>

    constructor ()
      ensures store == map[]
    {
      store := map[];
    }

    function Get(key: string): Entry
      reads this
    {
      if key in store then store[key] else EMPTY
    }

    /** A call with no other in flight. */
    method CheckRateLimit(key: string, limit: int, windowSeconds: int, now: int, fault: Fault)
      returns (allowed: bool, remaining: int)
      modifies this
      ensures (Get("ratelimit:" + key), allowed, remaining)
              == Outcome(old(Get("ratelimit:" + key)), limit, windowSeconds * 1_000_000, now, fault)
      ensures forall k :: k != "ratelimit:" + key ==> Get(k) == old(Get(k))
    {
      if fault.NoClient? || fault.AtPipeline? {
        return true, limit;
      }
      var redisKey := "ratelimit:" + key;
      var w := windowSeconds * 1_000_000;
      var e := Pruned(Get(redisKey), now, w);
      store := store[redisKey := e];
      var currentCount := |e.stamps|;
      if currentCount >= limit {
        return false, 0;
      }
      if fault.AtAdd? {
        return true, limit;
      }
      e := e.(stamps := e.stamps + {now});
      store := store[redisKey := e];
      if fault.AtExpire? {
        return true, limit;
      }
      store := store[redisKey := e.(expiry := Some(now + w + 60_000_000))];
      return true, limit - currentCount - 1;
    }
  }

  /**
   The entry left behind and the answer. Without a client, and on any exception, the request is
   allowed with the whole limit remaining, whatever the set already holds.
   */
  function Outcome(e: Entry, limit: int, w: int, now: int, fault: Fault): (Entry, bool, int) {
    var p := Pruned(e, now, w);
    if fault.NoClient? || fault.AtPipeline? then (e, true, limit)
    else if |p.stamps| >= limit then (p, false, 0)
    else if fault.AtAdd? then (p, true, limit)
    else if fault.AtExpire? then (p.(stamps := p.stamps + {now}), true, limit)
    else (Added(p, now, now, w), true, limit - |p.stamps| - 1)
  }

  // ---------- overlapping callers on one key ----------

  /** A caller reads the clock, prunes and counts; or the i-th admitted caller that has not yet added does so. */
  datatype Step = Check(now: int) | Add(i: nat, now: int)

  /** The key's entry, the timestamps still to be added, the latest time seen and the admission history. */
  datatype World = World(entry: Entry, pending: seq<int>, clock: int, admitted: seq<int>)

  function Next(s: World, step: Step, limit: int, w: int): World {
    match step
    case Check(now) =>
      var e := Pruned(s.entry, now, w);
      if |e.stamps| < limit then World(e, s.pending + [now], now, s.admitted + [now])
      else World(e, s.pending, now, s.admitted)
    case Add(i, now) =>
      if i < |s.pending| then
        World(Added(s.entry, s.pending[i], now, w), s.pending[..i] + s.pending[i + 1..], now, s.admitted)
      else s
  }

  /** Clock readings are distinct and never go back, and at most k callers overlap. */
  ghost predicate Legal(s: World, step: Step, k: nat) {
    match step
    case Check(now) => s.clock < now && |s.pending| < k
    case Add(i, now) => s.clock <= now && i < |s.pending|
  }

  function Run(steps: seq<Step>, limit: int, w: int): World {
    if steps == [] then World(EMPTY, [], -1, [])
    else Next(Run(steps[..|steps| - 1], limit, w), steps[|steps| - 1], limit, w)
  }

  ghost predicate LegalRun(steps: seq<Step>, limit: int, w: int, k: nat) {
    steps == [] ||
    (LegalRun(steps[..|steps| - 1], limit, w, k)
     && Legal(Run(steps[..|steps| - 1], limit, w), steps[|steps| - 1], k))
  }

  // ---------- counting ----------

  ghost predicate Increasing(ts: seq<int>) {
    forall i, j :: 0 <= i < j < |ts| ==> ts[i] < ts[j]
  }

  lemma {:induction false} DistinctFitsInSet(ts: seq<int>, s: set<int>)
    requires Increasing(ts) && forall i :: 0 <= i < |ts| ==> ts[i] in s
    ensures |ts| <= |s|
  {
    if ts != [] {
      var last := ts[|ts| - 1];
      DistinctFitsInSet(ts[..|ts| - 1], s - {last});
    }
  }

  lemma {:induction false} SetOfIsSmall(ts: seq<int>)
    ensures |set t | t in ts| <= |ts|
  {
    if ts != [] {
      var init, last := ts[..|ts| - 1], ts[|ts| - 1];
      SetOfIsSmall(init);
      assert (set t | t in ts) == (set t | t in init) + {last};
    }
  }

  lemma UnionIsSmall(a: set<int>, b: set<int>)
    ensures |a + b| <= |a| + |b|
  {
    assert |a + b| == |a| + |b| - |a * b|;
  }

  lemma SubsetIsSmall(a: set<int>, b: set<int>)
    requires a <= b
    ensures |a| <= |b|
  {
    assert b == a + (b - a);
    assert |b| == |a| + |b - a|;
  }

  lemma {:induction false} AfterIsIncreasing(ts: seq<int>, cutoff: int)
    requires Increasing(ts)
    ensures Increasing(After(ts, cutoff))
  {
    if ts != [] {
      var init, last := ts[..|ts| - 1], ts[|ts| - 1];
      assert ts == init + [last];
      AfterIsIncreasing(init, cutoff);
      AfterAppend(init, last, cutoff);
      AfterMembers(init, cutoff);
    }
  }

  // ---------- the bound ----------

  /** What every reachable world satisfies; bound is limit + k - 1. */
  ghost predicate Inv(s: World, w: int, bound: int, k: nat) {
    && |s.pending| <= k
    && |s.entry.stamps| + |s.pending| <= bound
    && Increasing(s.admitted)
    && (forall i :: 0 <= i < |s.admitted| ==> s.admitted[i] <= s.clock)
    && (forall i :: 0 <= i < |s.pending| ==> s.pending[i] <= s.clock)
    && (forall t :: t in s.entry.stamps ==> t <= s.clock)
    && (s.entry.expiry.Some? ==> forall t :: t in s.entry.stamps ==> t <= s.entry.expiry.value - w - 60_000_000)
    && (s.entry.expiry == None ==> s.entry.stamps == {})
    && (forall i :: 0 <= i < |s.admitted| && s.admitted[i] > s.clock - w ==>
          s.admitted[i] in s.entry.stamps || s.admitted[i] in s.pending)
  }

  lemma PruneKeepsRecent(s: World, now: int, w: int, bound: int, k: nat)
    requires Inv(s, w, bound, k) && s.clock <= now && w >= 0
    ensures |Pruned(s.entry, now, w).stamps| <= |Live(s.entry, now).stamps| <= |s.entry.stamps|
    ensures forall t :: t in s.entry.stamps && t > now - w ==> t in Pruned(s.entry, now, w).stamps
    ensures forall t :: t in Pruned(s.entry, now, w).stamps ==> t in Live(s.entry, now).stamps
  {
    SubsetIsSmall(Pruned(s.entry, now, w).stamps, Live(s.entry, now).stamps);
  }

  lemma CheckKeepsInv(s: World, now: int, limit: int, w: int, k: nat)
    requires limit >= 1 && k >= 1 && w >= 0
    requires Inv(s, w, limit + k - 1, k) && Legal(s, Check(now), k)
    ensures Inv(Next(s, Check(now), limit, w), w, limit + k - 1, k)
  {
    PruneKeepsRecent(s, now, w, limit + k - 1, k);
    var n := Next(s, Check(now), limit, w);
    forall i | 0 <= i < |n.admitted| && n.admitted[i] > n.clock - w
      ensures n.admitted[i] in n.entry.stamps || n.admitted[i] in n.pending
    {
      if i < |s.admitted| {
        assert s.admitted[i] > s.clock - w;
        if s.admitted[i] in s.pending {
          var j :| 0 <= j < |s.pending| && s.pending[j] == s.admitted[i];
          assert n.pending[j] == s.admitted[i];
        }
      } else {
        assert n.pending[|s.pending|] == now;
      }
    }
  }

  lemma AddKeepsInv(s: World, i: nat, now: int, limit: int, w: int, k: nat)
    requires limit >= 1 && k >= 1 && w >= 0
    requires Inv(s, w, limit + k - 1, k) && Legal(s, Add(i, now), k)
    ensures Inv(Next(s, Add(i, now), limit, w), w, limit + k - 1, k)
  {
    var n := Next(s, Add(i, now), limit, w);
    PruneKeepsRecent(s, now, w, limit + k - 1, k);
    UnionIsSmall(Live(s.entry, now).stamps, {s.pending[i]});
    forall m | 0 <= m < |n.admitted| && n.admitted[m] > n.clock - w
      ensures n.admitted[m] in n.entry.stamps || n.admitted[m] in n.pending
    {
      var h := s.admitted[m];
      assert h > s.clock - w;
      if h in s.pending {
        var j :| 0 <= j < |s.pending| && s.pending[j] == h;
        if j != i {
          assert n.pending[if j < i then j else j - 1] == h;
        }
      }
    }
  }

  lemma {:induction false} RunKeepsInv(steps: seq<Step>, limit: int, w: int, k: nat)
    requires limit >= 1 && k >= 1 && w >= 0 && LegalRun(steps, limit, w, k)
    ensures Inv(Run(steps, limit, w), w, limit + k - 1, k)
  {
    if steps != [] {
      var before, step := steps[..|steps| - 1], steps[|steps| - 1];
      RunKeepsInv(before, limit, w, k);
      match step
      case Check(now) => CheckKeepsInv(Run(before, limit, w), now, limit, w, k);
      case Add(i, now) => AddKeepsInv(Run(before, limit, w), i, now, limit, w, k);
    }
  }

  /** With at most k overlapping callers the sorted set never holds more than limit + k - 1 entries. */
  lemma SetStaysSmall(steps: seq<Step>, limit: int, w: int, k: nat)
    requires limit >= 1 && k >= 1 && w >= 0 && LegalRun(steps, limit, w, k)
    ensures |Run(steps, limit, w).entry.stamps| <= limit + k - 1
  {
    RunKeepsInv(steps, limit, w, k);
  }

  /** The admissions that still matter at a check are all in the pruned set or waiting to be added. */
  lemma RecentAdmissions(s: World, now: int, w: int, bound: int, k: nat)
    requires Inv(s, w, bound, k) && s.clock <= now && w >= 0
    ensures |After(s.admitted, now - w)| <= |Pruned(s.entry, now, w).stamps| + |s.pending|
  {
    var recent := After(s.admitted, now - w);
    var held, waiting := Pruned(s.entry, now, w).stamps, set t | t in s.pending;
    PruneKeepsRecent(s, now, w, bound, k);
    AfterIsIncreasing(s.admitted, now - w);
    AfterMembers(s.admitted, now - w);
    forall i | 0 <= i < |recent| ensures recent[i] in held + waiting {
      assert recent[i] in s.admitted;
    }
    DistinctFitsInSet(recent, held + waiting);
    UnionIsSmall(held, waiting);
    SetOfIsSmall(s.pending);
  }

  lemma RecentInRun(steps: seq<Step>, now: int, limit: int, w: int, k: nat)
    requires limit >= 1 && k >= 1 && w >= 0 && LegalRun(steps, limit, w, k)
    requires Legal(Run(steps, limit, w), Check(now), k)
    ensures var s := Run(steps, limit, w);
            |After(s.admitted, now - w)| <= |Pruned(s.entry, now, w).stamps| + |s.pending|
  {
    RunKeepsInv(steps, limit, w, k);
    RecentAdmissions(Run(steps, limit, w), now, w, limit + k - 1, k);
  }

  lemma CheckKeepsBound(s: World, now: int, limit: int, w: int, k: nat, t: int)
    requires |s.pending| < k && |After(s.admitted, now - w)| <= |Pruned(s.entry, now, w).stamps| + |s.pending|
    requires InInterval(s.admitted, t - w, t) <= limit + k - 1
    ensures InInterval(Next(s, Check(now), limit, w).admitted, t - w, t) <= limit + k - 1
  {
    IntervalAppend(s.admitted, now, t - w, t);
    if now <= t {
      IntervalWithinAfter(s.admitted, now - w, t - w, t);
    }
  }

  /** With at most k overlapping callers no window sees more than limit + k - 1 admissions; for k = 1 that is the limit. */
  lemma {:induction false} WindowBound(steps: seq<Step>, limit: int, w: int, k: nat, t: int)
    requires limit >= 1 && k >= 1 && w >= 0 && LegalRun(steps, limit, w, k)
    ensures InInterval(Run(steps, limit, w).admitted, t - w, t) <= limit + k - 1
  {
    if steps != [] {
      var before, step := steps[..|steps| - 1], steps[|steps| - 1];
      WindowBound(before, limit, w, k, t);
      if step.Check? {
        RecentInRun(before, step.now, limit, w, k);
        CheckKeepsBound(Run(before, limit, w), step.now, limit, w, k, t);
      }
    }
  }

  /** A limit below one admits nobody. */
  lemma {:induction false} NoLimitNoAdmission(steps: seq<Step>, limit: int, w: int)
    requires limit <= 0
    ensures Run(steps, limit, w).admitted == []
  {
    if steps != [] {
      NoLimitNoAdmission(steps[..|steps| - 1], limit, w);
    }
  }

  // ---------- a lone caller is served exactly by the limit ----------

  /** Every entry and every timestamp about to be added belongs to an admission, none before time 0. */
  ghost predicate Genuine(s: World) {
    && s.clock >= -1
    && (forall x :: x in s.entry.stamps ==> x in s.admitted && x >= 0)
    && forall i :: 0 <= i < |s.pending| ==> s.pending[i] in s.admitted && s.pending[i] >= 0
  }

  lemma NextIsGenuine(s: World, step: Step, limit: int, w: int, k: nat)
    requires Genuine(s) && Legal(s, step, k)
    ensures Genuine(Next(s, step, limit, w))
  {
    var n := Next(s, step, limit, w);
    if step.Check? {
      forall x | x in s.admitted ensures x in n.admitted {
      }
      forall i | 0 <= i < |n.pending| ensures n.pending[i] in n.admitted && n.pending[i] >= 0 {
        if i == |s.pending| {
          assert n.admitted[|s.admitted|] == n.pending[i];
        }
      }
    }
  }

  lemma {:induction false} RunIsGenuine(steps: seq<Step>, limit: int, w: int, k: nat)
    requires LegalRun(steps, limit, w, k)
    ensures Genuine(Run(steps, limit, w))
  {
    if steps != [] {
      RunIsGenuine(steps[..|steps| - 1], limit, w, k);
      NextIsGenuine(Run(steps[..|steps| - 1], limit, w), steps[|steps| - 1], limit, w, k);
    }
  }

  lemma CountsAdmissions(s: World, now: int, w: int)
    requires Genuine(s)
    ensures |Pruned(s.entry, now, w).stamps| <= |After(s.admitted, now - w)|
  {
    var recent, held := After(s.admitted, now - w), Pruned(s.entry, now, w).stamps;
    FilterMembers(s.admitted, (t: int) => t > now - w);
    forall x | x in held ensures x in recent {
      assert x in s.admitted && x >= 0;
    }
    SetOfIsSmall(recent);
    SubsetIsSmall(held, set x | x in recent);
  }

  /** What Redis counts at a call, between the admissions of its window and those among them still to be added. */
  lemma CountIsLoad(s: World, now: int, w: int, bound: int, k: nat)
    requires Genuine(s) && Inv(s, w, bound, k) && s.clock < now && w >= 0
    ensures |Pruned(s.entry, now, w).stamps| <= WindowLoad(s.admitted, now, w) <= |Pruned(s.entry, now, w).stamps| + |s.pending|
  {
    CountsAdmissions(s, now, w);
    RecentAdmissions(s, now, w, bound, k);
    IntervalIsAfter(s.admitted, now - w, now);
  }

  lemma CheckAdmits(s: World, now: int, limit: int, w: int)
    ensures var admitted := Next(s, Check(now), limit, w).admitted;
            if |Pruned(s.entry, now, w).stamps| < limit then admitted == s.admitted + [now] else admitted == s.admitted
  {
  }

  /** However callers overlap, a call is refused only if the window that ends with it holds as many admissions as the limit. */
  lemma RefusedOnlyWhenFull(steps: seq<Step>, now: int, limit: int, w: int, k: nat)
    requires limit >= 1 && k >= 1 && w >= 0 && LegalRun(steps, limit, w, k) && Legal(Run(steps, limit, w), Check(now), k)
    ensures var admitted := Run(steps, limit, w).admitted;
            Next(Run(steps, limit, w), Check(now), limit, w).admitted == admitted ==> WindowLoad(admitted, now, w) >= limit
  {
    RunIsGenuine(steps, limit, w, k);
    RunKeepsInv(steps, limit, w, k);
    CountIsLoad(Run(steps, limit, w), now, w, limit + k - 1, k);
    CheckAdmits(Run(steps, limit, w), now, limit, w);
  }

  /** With nobody else under way it is admitted exactly when the window holds fewer. */
  lemma AdmittedIff(steps: seq<Step>, now: int, limit: int, w: int, k: nat)
    requires limit >= 1 && k >= 1 && w >= 0 && LegalRun(steps, limit, w, k) && Legal(Run(steps, limit, w), Check(now), k)
    requires Run(steps, limit, w).pending == []
    ensures var admitted := Run(steps, limit, w).admitted;
            Next(Run(steps, limit, w), Check(now), limit, w).admitted == admitted + [now]
            <==> WindowLoad(admitted, now, w) < limit
  {
    RunIsGenuine(steps, limit, w, k);
    RunKeepsInv(steps, limit, w, k);
    CountIsLoad(Run(steps, limit, w), now, w, limit + k - 1, k);
    CheckAdmits(Run(steps, limit, w), now, limit, w);
  }

  /** The timestamps that count at a call: those of a key that is not expired, later than the window's start. */
  ghost predicate InWindow(e: Entry, now: int, w: int, x: int) {
    x in e.stamps && (e.expiry == None || now < e.expiry.value) && (x > now - w || x < 0)
  }

  /**
   What a call without a fault answers and leaves: refused with nothing remaining, or admitted and entered
   for a minute beyond the window, with the rest of the limit remaining.
   */
  lemma OutcomeMeans(e: Entry, limit: int, w: int, now: int)
    requires !InWindow(e, now, w, now)
    ensures var (e', allowed, remaining) := Outcome(e, limit, w, now, NoFault);
            && (!allowed ==> remaining == 0 && |e'.stamps| >= limit && forall x :: x in e'.stamps <==> InWindow(e, now, w, x))
            && (allowed && w > -60_000_000 ==>
                  && remaining + |e'.stamps| == limit
                  && e'.expiry == Some(now + w + 60_000_000)
                  && forall x :: x in e'.stamps <==> InWindow(e, now, w, x) || x == now)
  {
    var p := Pruned(e, now, w);
    forall x ensures x in p.stamps <==> InWindow(e, now, w, x) {
    }
    assert now !in p.stamps;
    assert |p.stamps + {now}| == |p.stamps| + 1;
  }

  /**
   Faults fail open: the request is refused only if the set was counted and full, and any fault reports the
   whole limit as remaining. Only a call that reached the add leaves its timestamp.
   */
  lemma FaultsFailOpen(e: Entry, limit: int, w: int, now: int, fault: Fault)
    requires fault != NoFault
    ensures var p := Pruned(e, now, w);
            var full := |p.stamps| >= limit && (fault == AtAdd || fault == AtExpire);
            var (e', allowed, remaining) := Outcome(e, limit, w, now, fault);
            && (allowed <==> !full) && remaining == (if full then 0 else limit)
            && e' == if fault == NoClient || fault == AtPipeline then e
                     else if fault == AtExpire && !full then Entry(p.stamps + {now}, p.expiry) else p
  {
  }

  // ---------- the bound is reached ----------

  lemma RunAppend(steps: seq<Step>, step: Step, limit: int, w: int, k: nat)
    ensures Run(steps + [step], limit, w) == Next(Run(steps, limit, w), step, limit, w)
    ensures LegalRun(steps, limit, w, k) && Legal(Run(steps, limit, w), step, k) ==> LegalRun(steps + [step], limit, w, k)
  {
    assert (steps + [step])[..|steps|] == steps;
  }

  function UpTo(n: nat): (s: set<int>)
    ensures |s| == n && forall t :: t in s <==> 0 <= t < n
  {
    if n == 0 then {} else UpTo(n - 1) + {n - 1}
  }

  function From(a: int, n: nat): (s: seq<int>)
    ensures |s| == n && forall i :: 0 <= i < n ==> s[i] == a + i
  {
    if n == 0 then [] else From(a, n - 1) + [a + n - 1]
  }

  /** n callers have come and gone, one at each tick. */
  ghost predicate Filled(s: World, n: nat, w: int) {
    && s.entry.stamps == UpTo(n) && s.pending == [] && s.clock == n - 1 && s.admitted == From(0, n)
    && (s.entry.expiry.Some? ==> s.entry.expiry.value > n + w)
  }

  lemma FillOneMore(s: World, n: nat, limit: int, w: int)
    requires Filled(s, n, w) && n < limit && w > n
    ensures var counted := Next(s, Check(n), limit, w);
            counted.pending == [n] && counted.clock == n && Filled(Next(counted, Add(0, n), limit, w), n + 1, w)
  {
    assert Pruned(s.entry, n, w).stamps == UpTo(n);
    assert [] + [n] == [n] && [n][..0] + [n][1..] == [];
  }

  /** The first n clock ticks, one caller after the other, fill the set up to n below the limit. */
  lemma {:induction false} FillUp(n: nat, limit: int, w: int, k: nat) returns (steps: seq<Step>)
    requires n < limit && k >= 1 && w > n
    ensures LegalRun(steps, limit, w, k) && Filled(Run(steps, limit, w), n, w)
  {
    steps := [];
    if n > 0 {
      steps := FillUp(n - 1, limit, w, k);
      FillOneMore(Run(steps, limit, w), n - 1, limit, w);
      RunAppend(steps, Check(n - 1), limit, w, k);
      steps := steps + [Check(n - 1)];
      RunAppend(steps, Add(0, n - 1), limit, w, k);
      steps := steps + [Add(0, n - 1)];
    }
  }

  /** i callers have counted and none has added: the set still holds base entries. */
  ghost predicate Counted(s: World, base: nat, i: nat, w: int) {
    && s.entry.stamps == UpTo(base) && |s.pending| == i && s.clock == base + i - 1
    && s.admitted == From(0, base + i)
    && (s.entry.expiry.Some? ==> s.entry.expiry.value > base + w)
  }

  lemma CountOneMore(s: World, base: nat, i: nat, limit: int, w: int)
    requires Counted(s, base, i, w) && base < limit && w > base + i
    ensures Counted(Next(s, Check(base + i), limit, w), base, i + 1, w)
  {
    assert Pruned(s.entry, base + i, w).stamps == UpTo(base);
  }

  /** k callers that all count before any of them adds are all admitted, so limit + k - 1 fall into one window that has as many ticks. */
  lemma BoundIsReached(limit: int, w: int, k: nat) returns (steps: seq<Step>)
    requires limit >= 1 && k >= 1 && w >= limit + k - 1
    ensures LegalRun(steps, limit, w, k)
    ensures InInterval(Run(steps, limit, w).admitted, -1, w - 1) == limit + k - 1
  {
    var base := limit - 1;
    steps := FillUp(base, limit, w, k);
    for i := 0 to k
      invariant LegalRun(steps, limit, w, k) && Counted(Run(steps, limit, w), base, i, w)
    {
      RunAppend(steps, Check(base + i), limit, w, k);
      CountOneMore(Run(steps, limit, w), base, i, limit, w);
      steps := steps + [Check(base + i)];
    }
    CountedInside(Run(steps, limit, w), base, k, w);
  }

  lemma CountedInside(s: World, base: nat, k: nat, w: int)
    requires Counted(s, base, k, w) && base + k <= w
    ensures InInterval(s.admitted, -1, w - 1) == base + k
  {
    AllInside(base + k, w);
  }

  lemma {:induction false} AllInside(n: nat, w: int)
    requires n <= w
    ensures InInterval(From(0, n), -1, w - 1) == n
  {
    if n > 0 {
      AllInside(n - 1, w);
      IntervalAppend(From(0, n - 1), n - 1, -1, w - 1);
    }
  }

  /** No window of any run with at most k overlapping callers sees more admissions than the limit. */
  ghost predicate LimitIsKept(limit: int, w: int, k: nat) {
    forall steps, t :: LegalRun(steps, limit, w, k) ==> WindowLoad(Run(steps, limit, w).admitted, t, w) <= limit
  }

  /** Distinct timestamps: an interval holds no more of them than it has ticks, up to the last one. */
  lemma {:induction false} NoMoreThanTicks(ts: seq<int>, from: int, to: int)
    requires Increasing(ts) && from <= to
    ensures InInterval(ts, from, to) <= to - from
    ensures ts != [] && from <= ts[|ts| - 1] ==> InInterval(ts, from, to) <= ts[|ts| - 1] - from
    ensures ts != [] && ts[|ts| - 1] <= from ==> InInterval(ts, from, to) == 0
  {
    if ts != [] {
      NoMoreThanTicks(ts[..|ts| - 1], from, to);
    }
  }

  lemma {:induction false} MoreMayOverlap(steps: seq<Step>, limit: int, w: int, k: nat, more: nat)
    requires LegalRun(steps, limit, w, k) && k <= more
    ensures LegalRun(steps, limit, w, more)
  {
    if steps != [] {
      MoreMayOverlap(steps[..|steps| - 1], limit, w, k, more);
    }
  }

  /**
   The limit is kept exactly as long as callers do not overlap, or if the window has no more ticks than the
   limit allows requests anyway.
   */
  lemma LimitIsKeptIff(limit: int, w: int, k: nat)
    requires limit >= 1 && k >= 1 && w >= 0
    ensures LimitIsKept(limit, w, k) <==> k == 1 || w <= limit
  {
    if k == 1 || w <= limit {
      forall steps, t | LegalRun(steps, limit, w, k) ensures WindowLoad(Run(steps, limit, w).admitted, t, w) <= limit {
        WindowBound(steps, limit, w, k, t);
        RunKeepsInv(steps, limit, w, k);
        NoMoreThanTicks(Run(steps, limit, w).admitted, t - w, t);
      }
    } else {
      var steps := BoundIsReached(limit, w, 2);
      MoreMayOverlap(steps, limit, w, 2, k);
      assert WindowLoad(Run(steps, limit, w).admitted, w - 1, w) == limit + 1;
    }
  }
}
