/**
 The in-memory sliding-window limiter (backend/middleware/rate_limit.py). Times are whole
 microseconds; each endpoint has its own limit and window, which do not change.
 */
module MemoryLimiter {
  import opened Sorting
  import opened Sliding

  /** Raised is the ValueError of taking the minimum of an empty list, which a limit below 1 provokes. */
  datatype Verdict = Allowed | Denied(retryAfter: int) | Raised

  function MinOf(ts: seq<int>): (m: int)
    requires ts != []
    ensures m in ts && forall i :: 0 <= i < |ts| ==> m <= ts[i]
  {
    if |ts| == 1 then ts[0]
    else
      var m := MinOf(ts[1..]);
      if ts[0] <= m then ts[0] else m
  }

  /** What is_allowed leaves in the list of one key and endpoint, and what it returns; w is the window in microseconds. */
  function Decide(times: seq<int>, now: int, max: int, w: int): (seq<int>, Verdict) {
    var kept := After(times, now - w);
    if |kept| >= max then
      (kept, if kept == [] then Raised else Denied((MinOf(kept) + w - now) / 1_000_000 + 1))
    else (kept + [now], Allowed)
  }

  /** Lists by key and endpoint; looking up a missing pair creates an empty list. */
  type Tables = map<string, map<string, seq<int>>>

  function Lookup(m: Tables, key: string, endpoint: string): seq<int> {
    if key in m && endpoint in m[key] then m[key][endpoint] else []
  }

  function Put(m: Tables, key: string, endpoint: string, times: seq<int>): Tables {
    m[key := (if key in m then m[key] else map[])[endpoint := times]]
  }

  lemma PutLookup(m: Tables, key: string, endpoint: string, times: seq<int>, k: string, e: string)
    ensures Lookup(Put(m, key, endpoint, times), k, e)
            == if k == key && e == endpoint then times else Lookup(m, k, e)
  {
  }

  /** The work done under the lock, on the list of one key and endpoint. */
  method Judge(times: seq<int>, now: int, max: int, w: int) returns (times': seq<int>, v: Verdict)
    ensures (times', v) == Decide(times, now, max, w)
  {
    var windowStart := now - w;
    times' := [];
    for i := 0 to |times|
      invariant times' == After(times[..i], windowStart)
    {
      AfterAppend(times[..i], times[i], windowStart);
      assert times[..i + 1] == times[..i] + [times[i]];
      if times[i] > windowStart {
        times' := times' + [times[i]];
      }
    }
    assert times[..|times|] == times;
    if |times'| >= max {
      if times' == [] {
        return times', Raised;
      }
      var oldest := MinOf(times');
      var retryAfter := (oldest + w - now) / 1_000_000 + 1;
      return times', Denied(retryAfter);
    }
    return times' + [now], Allowed;
  }

  class InMemoryRateLimiter {
    var requests: Tables

    constructor ()
      ensures requests == map[]
    {
      requests := map[];
    }

    method IsAllowed(key: string, endpoint: string, maxRequests: int, windowSeconds: int, now: int) returns (v: Verdict)
      modifies this
      ensures var (times, v') := Decide(old(Lookup(requests, key, endpoint)), now, maxRequests, windowSeconds * 1_000_000);
              requests == Put(old(requests), key, endpoint, times) && v == v'
    {
      var times := Lookup(requests, key, endpoint);
      var times', verdict := Judge(times, now, maxRequests, windowSeconds * 1_000_000);
      requests := Put(requests, key, endpoint, times');
      return verdict;
    }

    method Clear()
      modifies this
      ensures forall k, e :: Lookup(requests, k, e) == []
    {
      requests := map[];
    }
  }

  // ---------- one key ----------

  /** The stored list and the full admission history after calls at these times. */
  function Run(calls: seq<int>, max: int, w: int): (seq<int>, seq<int>) {
    if calls == [] then ([], [])
    else
      var (times, admitted) := Run(calls[..|calls| - 1], max, w);
      var now := calls[|calls| - 1];
      var (times', v) := Decide(times, now, max, w);
      (times', if v == Allowed then admitted + [now] else admitted)
  }

  /** The stored list is the history cut to the last window. */
  ghost predicate IsWindowOf(times: seq<int>, admitted: seq<int>, last: int, max: int, w: int) {
    && times == After(admitted, last - w)
    && (max >= 0 ==> |times| <= max)
    && forall i :: 0 <= i < |admitted| ==> admitted[i] <= last
  }

  lemma WindowStep(times: seq<int>, admitted: seq<int>, last: int, now: int, max: int, w: int)
    requires IsWindowOf(times, admitted, last, max, w) && last <= now && w > 0
    ensures var (times', v) := Decide(times, now, max, w);
            IsWindowOf(times', if v == Allowed then admitted + [now] else admitted, now, max, w)
  {
    AfterMembers(times, now - w);
    AfterAppend(admitted, now, now - w);
    AfterAfter(admitted, last - w, now - w);
  }

  lemma BoundStep(times: seq<int>, admitted: seq<int>, last: int, now: int, max: int, w: int, t: int)
    requires IsWindowOf(times, admitted, last, max, w) && last <= now && w > 0
    requires InInterval(admitted, t - w, t) <= max
    ensures var (times', v) := Decide(times, now, max, w);
            InInterval(if v == Allowed then admitted + [now] else admitted, t - w, t) <= max
  {
    IntervalAppend(admitted, now, t - w, t);
    AfterAfter(admitted, last - w, now - w);
    if now <= t {
      IntervalWithinAfter(admitted, now - w, t - w, t);
    }
  }

  /** The stored list is the whole history cut to the window of the last call, and never exceeds the limit. */
  lemma {:induction false} ListIsWindowOfHistory(calls: seq<int>, max: int, w: int)
    requires Nondecreasing(calls) && calls != [] && w > 0
    ensures IsWindowOf(Run(calls, max, w).0, Run(calls, max, w).1, calls[|calls| - 1], max, w)
  {
    var before, now := calls[..|calls| - 1], calls[|calls| - 1];
    if before == [] {
      WindowStep([], [], now, now, max, w);
    } else {
      ListIsWindowOfHistory(before, max, w);
      WindowStep(Run(before, max, w).0, Run(before, max, w).1, before[|before| - 1], now, max, w);
    }
  }

  /** No interval of one window's length holds more admissions than the limit. */
  lemma {:induction false} WindowBound(calls: seq<int>, max: int, w: int, t: int)
    requires Nondecreasing(calls) && w > 0 && max >= 0
    ensures InInterval(Run(calls, max, w).1, t - w, t) <= max
  {
    if calls != [] {
      var before, now := calls[..|calls| - 1], calls[|calls| - 1];
      WindowBound(before, max, w, t);
      if before == [] {
        BoundStep([], [], now, now, max, w, t);
      } else {
        ListIsWindowOfHistory(before, max, w);
        BoundStep(Run(before, max, w).0, Run(before, max, w).1, before[|before| - 1], now, max, w, t);
      }
    }
  }

  /** A call is allowed exactly when fewer admissions than the limit lie in the window that ends with it. */
  lemma AllowedIff(calls: seq<int>, now: int, max: int, w: int)
    requires Nondecreasing(calls) && (calls != [] ==> calls[|calls| - 1] <= now) && w > 0
    ensures var (times, admitted) := Run(calls, max, w);
            Decide(times, now, max, w).1 == Allowed <==> InInterval(admitted, now - w, now) < max
  {
    var (times, admitted) := Run(calls, max, w);
    if calls != [] {
      var last := calls[|calls| - 1];
      ListIsWindowOfHistory(calls, max, w);
      AfterAfter(admitted, last - w, now - w);
    }
    IntervalIsAfter(admitted, now - w, now);
  }

  // ---------- several keys ----------

  datatype Call = Call(key: string, endpoint: string, now: int)

  /** The limit and the window of an endpoint. */
  datatype Limit = Limit(max: int, w: int)

  /** All tables and the calls admitted, after a run over any keys and endpoints, each endpoint with its own limits. */
  function RunAll(calls: seq<Call>, limits: string -> Limit): (Tables, seq<Call>) {
    if calls == [] then (map[], [])
    else
      var (m, admitted) := RunAll(calls[..|calls| - 1], limits);
      var c := calls[|calls| - 1];
      var (times, v) := Decide(Lookup(m, c.key, c.endpoint), c.now, limits(c.endpoint).max, limits(c.endpoint).w);
      (Put(m, c.key, c.endpoint, times), if v == Allowed then admitted + [c] else admitted)
  }

  /** The times of the calls with one key and endpoint. */
  function TimesOf(calls: seq<Call>, key: string, endpoint: string): seq<int> {
    if calls == [] then []
    else
      var c := calls[|calls| - 1];
      TimesOf(calls[..|calls| - 1], key, endpoint) + if c.key == key && c.endpoint == endpoint then [c.now] else []
  }

  lemma TimesOfAppend(calls: seq<Call>, c: Call, key: string, endpoint: string)
    ensures TimesOf(calls + [c], key, endpoint)
            == TimesOf(calls, key, endpoint) + if c.key == key && c.endpoint == endpoint then [c.now] else []
  {
    assert (calls + [c])[..|calls|] == calls;
  }

  /** Each key and endpoint behaves as if no other existed. */
  lemma {:induction false} KeysAreIndependent(calls: seq<Call>, limits: string -> Limit, key: string, endpoint: string)
    ensures var (m, admitted) := RunAll(calls, limits);
            (Lookup(m, key, endpoint), TimesOf(admitted, key, endpoint))
            == Run(TimesOf(calls, key, endpoint), limits(endpoint).max, limits(endpoint).w)
  {
    if calls != [] {
      var before, c := calls[..|calls| - 1], calls[|calls| - 1];
      assert calls == before + [c];
      KeysAreIndependent(before, limits, key, endpoint);
      TimesOfAppend(before, c, key, endpoint);
      var ts := TimesOf(before, key, endpoint);
      var (m, admitted) := RunAll(before, limits);
      var max, w := limits(c.endpoint).max, limits(c.endpoint).w;
      var (times, v) := Decide(Lookup(m, c.key, c.endpoint), c.now, max, w);
      PutLookup(m, c.key, c.endpoint, times, key, endpoint);
      TimesOfAppend(admitted, c, key, endpoint);
      if c.key == key && c.endpoint == endpoint {
        assert Lookup(m, c.key, c.endpoint) == Run(ts, max, w).0;
        RunAppend(ts, c.now, max, w);
      } else {
        assert ts + [] == ts;
        assert TimesOf(admitted, key, endpoint) + [] == TimesOf(admitted, key, endpoint);
      }
    }
  }

  lemma RunAppend(calls: seq<int>, now: int, max: int, w: int)
    ensures var (times, admitted) := Run(calls, max, w);
            var (times', v) := Decide(times, now, max, w);
            Run(calls + [now], max, w) == (times', if v == Allowed then admitted + [now] else admitted)
  {
    assert (calls + [now])[..|calls|] == calls;
  }

  // ---------- the retry hint ----------

  lemma {:induction false} FilterDrops(ts: seq<int>, p: int -> bool, i: nat)
    requires i < |ts| && !p(ts[i])
    ensures |Filter(ts, p)| < |ts|
  {
    FilterMembers(ts[1..], p);
    if i > 0 {
      FilterDrops(ts[1..], p, i - 1);
    }
  }

  /** After a denial, with no other admission, the next call is allowed exactly from the moment the oldest entry leaves the window. */
  lemma AllowedAgainIff(times: seq<int>, now: int, later: int, max: int, w: int)
    requires max >= 1 && |times| <= max && now <= later
    requires Decide(times, now, max, w).1.Denied?
    ensures var kept := Decide(times, now, max, w).0;
            && kept != []
            && (Decide(kept, later, max, w).1 == Allowed <==> later >= MinOf(kept) + w)
            && (Decide(kept, later, max, w).1.Denied? <==> later < MinOf(kept) + w)
  {
    var kept := Decide(times, now, max, w).0;
    AfterMembers(times, now - w);
    if later >= MinOf(kept) + w {
      var i :| 0 <= i < |kept| && kept[i] == MinOf(kept);
      FilterDrops(kept, (t: int) => t > later - w, i);
    } else {
      AfterAll(kept, later - w);
    }
  }

  /** Waiting retry_after seconds is always enough; any wait shorter by more than a second never is. */
  lemma RetryAfterIsSoundAndTight(times: seq<int>, now: int, later: int, max: int, w: int)
    requires max >= 1 && |times| <= max && now <= later
    requires Decide(times, now, max, w).1.Denied?
    ensures var (kept, v) := Decide(times, now, max, w);
            && v.retryAfter >= 1
            && (v.retryAfter - 1) * 1_000_000 <= MinOf(kept) + w - now < v.retryAfter * 1_000_000
            && (later >= now + v.retryAfter * 1_000_000 ==> Decide(kept, later, max, w).1 == Allowed)
            && (later < now + (v.retryAfter - 1) * 1_000_000 ==> Decide(kept, later, max, w).1.Denied?)
  {
    AllowedAgainIff(times, now, later, max, w);
    var kept := Decide(times, now, max, w).0;
    AfterMembers(times, now - w);
    var left := MinOf(kept) + w - now;
    assert left > 0;
    assert left / 1_000_000 * 1_000_000 <= left < (left / 1_000_000 + 1) * 1_000_000;
  }
}
