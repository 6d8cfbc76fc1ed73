/**
 The rate-limiting middleware (backend/middleware/rate_limit.py): Redis first, the in-memory
 limiter when the Redis step raises. The 429 raised on a Redis denial is itself an exception
 inside that try block, so a denial by Redis is decided again by the in-memory limiter.
 */
module Middleware {
  import opened Results
  import opened Sliding
  import opened Sorting
  import Redis = RedisLimiter
  import Memory = MemoryLimiter

  /** Requests per window, and the window in seconds. */
  datatype Config = Config(maxRequests: int, windowSeconds: int)

  datatype Response = Passed | TooManyRequests(retryAfter: int) | ServerError

  /** The first configured prefix the path starts with. */
  function RateConfig(path: string): Option<Config> {
    if "/api/v1/auth/login" <= path then Some(Config(10, 60))
    else if "/api/v1/auth/callback" <= path then Some(Config(20, 60))
    else if "/api/v1/auth/demo-login" <= path then Some(Config(5, 60))
    else if "/api/v1/auth/api-key" <= path then Some(Config(5, 300))
    else None
  }

  function ClientIp(client: Option<string>): string {
    match client case Some(host) => host case None => "unknown"
  }

  /** The Redis key of a client and path. */
  function KeyOf(ip: string, path: string): string {
    "ratelimit:" + ("ip:" + ip + ":" + path)
  }

  class RateLimitMiddleware {
    const redis: Redis.RateLimiter
    const memory: Memory.InMemoryRateLimiter

    constructor (redis: Redis.RateLimiter, memory: Memory.InMemoryRateLimiter)
      ensures this.redis == redis && this.memory == memory
    {
      this.redis, this.memory := redis, memory;
    }

    method Dispatch(path: string, client: Option<string>, now: int, fault: Redis.Fault) returns (r: Response)
      modifies redis, memory
      ensures RateConfig(path) == None ==>
                r == Passed && redis.store == old(redis.store) && memory.requests == old(memory.requests)
      ensures RateConfig(path).Some? ==>
                var Config(max, seconds) := RateConfig(path).value;
                var ip := if client.Some? then client.value else "unknown";
                var key := KeyOf(ip, path);
                var times := old(Memory.Lookup(memory.requests, ip, path));
                var (e, byRedis, remaining) := Redis.Outcome(old(redis.Get(key)), max, seconds * 1_000_000, now, fault);
                var (times', v) := Memory.Decide(times, now, max, seconds * 1_000_000);
                && redis.Get(key) == e && (forall k :: k != key ==> redis.Get(k) == old(redis.Get(k)))
                && (byRedis ==> r == Passed && memory.requests == old(memory.requests))
                && (!byRedis ==>
                      && memory.requests == Memory.Put(old(memory.requests), ip, path, times')
                      && r == match v
                              case Allowed => Passed
                              case Denied(s) => TooManyRequests(s)
                              case Raised => ServerError)
    {
      var config := RateConfig(path);
      if config == None {
        return Passed;
      }
      var Config(max, seconds) := config.value;
      var ip := ClientIp(client);
      var byRedis, remaining := redis.CheckRateLimit("ip:" + ip + ":" + path, max, seconds, now, fault);
      if !byRedis {
        var v := memory.IsAllowed(ip, path, max, seconds, now);
        match v {
          case Allowed => return Passed;
          case Denied(s) => return TooManyRequests(s);
          case Raised => return ServerError;
        }
      }
      return Passed;
    }
  }

  // ---------- one client and path, calls one at a time ----------

  /** Both stores, the calls Redis denied, and who was admitted by what. */
  datatype World = World(entry: Redis.Entry, times: seq<int>, denied: seq<int>,
                         byRedis: seq<int>, byMemory: seq<int>, admitted: seq<int>)

  const START := World(Redis.EMPTY, [], [], [], [], [])

  function Next(s: World, now: int, max: int, w: int, fault: Redis.Fault): World {
    var (e, allowed, remaining) := Redis.Outcome(s.entry, max, w, now, fault);
    if allowed then
      World(e, s.times, s.denied, s.byRedis + [now], s.byMemory, s.admitted + [now])
    else
      var (times, v) := Memory.Decide(s.times, now, max, w);
      if v == Memory.Allowed then
        World(e, times, s.denied + [now], s.byRedis, s.byMemory + [now], s.admitted + [now])
      else
        World(e, times, s.denied + [now], s.byRedis, s.byMemory, s.admitted)
  }

  /** What goes wrong with Redis at each moment; call times are distinct, so this fixes it call by call. */
  type Weather = int -> Redis.Fault

  function Run(calls: seq<int>, max: int, w: int, faults: Weather): World {
    if calls == [] then START
    else
      var now := calls[|calls| - 1];
      Next(Run(calls[..|calls| - 1], max, w, faults), now, max, w, faults(now))
  }

  ghost predicate Increasing(ts: seq<int>) {
    forall i, j :: 0 <= i < j < |ts| ==> ts[i] < ts[j]
  }

  /** The clock readings of a run: increasing, and no earlier than time 0. */
  ghost predicate Clocked(calls: seq<int>) {
    Increasing(calls) && (calls != [] ==> calls[0] >= 0)
  }

  /** Redis answers every call. */
  ghost predicate RedisUp(calls: seq<int>, faults: Weather) {
    forall i :: 0 <= i < |calls| ==> faults(calls[i]) == Redis.NoFault
  }

  lemma Prefix(calls: seq<int>, faults: Weather)
    requires calls != []
    ensures Clocked(calls) ==> Clocked(calls[..|calls| - 1])
    ensures RedisUp(calls, faults) ==>
              RedisUp(calls[..|calls| - 1], faults) && faults(calls[|calls| - 1]) == Redis.NoFault
  {
  }

  // ---------- each half is a run of its own limiter ----------

  /** A run of the two-step protocol has reached the Redis half of s, with the clock at last. */
  ghost predicate RedisAt(steps: seq<Redis.Step>, s: World, last: int, max: int, w: int) {
    && Redis.LegalRun(steps, max, w, 1)
    && Redis.Run(steps, max, w) == Redis.World(s.entry, [], last, s.byRedis)
  }

  /** What one undisturbed call makes of the Redis half. */
  function Served(e: Redis.Entry, now: int, max: int, w: int, admitted: seq<int>): Redis.World {
    var p := Redis.Pruned(e, now, w);
    if |p.stamps| < max then Redis.World(Redis.Added(p, now, now, w), [], now, admitted + [now])
    else Redis.World(p, [], now, admitted)
  }

  /** Counting and, if admitted, adding at the same moment is what a lone caller does. */
  lemma LoneCaller(e: Redis.Entry, last: int, admitted: seq<int>, now: int, max: int, w: int)
    ensures var p := Redis.Pruned(e, now, w);
            var r := Redis.Next(Redis.World(e, [], last, admitted), Redis.Check(now), max, w);
            if |p.stamps| < max then
              && r == Redis.World(p, [now], now, admitted + [now])
              && Redis.Next(r, Redis.Add(0, now), max, w) == Served(e, now, max, w, admitted)
            else r == Served(e, now, max, w, admitted)
  {
    assert [] + [now] == [now] && [now][..0] + [now][1..] == [];
  }

  lemma NextOfRedisHalf(s: World, now: int, max: int, w: int)
    ensures var n := Next(s, now, max, w, Redis.NoFault);
            Redis.World(n.entry, [], now, n.byRedis) == Served(s.entry, now, max, w, s.byRedis)
  {
  }

  lemma LoneSteps(steps: seq<Redis.Step>, e: Redis.Entry, last: int, admitted: seq<int>, now: int, max: int, w: int)
    returns (steps': seq<Redis.Step>)
    requires Redis.LegalRun(steps, max, w, 1) && last < now
    requires Redis.Run(steps, max, w) == Redis.World(e, [], last, admitted)
    ensures Redis.LegalRun(steps', max, w, 1)
    ensures Redis.Run(steps', max, w) == Served(e, now, max, w, admitted)
  {
    LoneCaller(e, last, admitted, now, max, w);
    var world := Redis.World(e, [], last, admitted);
    assert Redis.Legal(world, Redis.Check(now), 1);
    Redis.RunAppend(steps, Redis.Check(now), max, w, 1);
    steps' := steps + [Redis.Check(now)];
    if |Redis.Pruned(e, now, w).stamps| < max {
      assert Redis.Legal(Redis.Run(steps', max, w), Redis.Add(0, now), 1);
      Redis.RunAppend(steps', Redis.Add(0, now), max, w, 1);
      steps' := steps' + [Redis.Add(0, now)];
    }
  }

  lemma RedisStep(steps: seq<Redis.Step>, s: World, last: int, now: int, max: int, w: int)
    returns (steps': seq<Redis.Step>)
    requires RedisAt(steps, s, last, max, w) && last < now
    ensures RedisAt(steps', Next(s, now, max, w, Redis.NoFault), now, max, w)
  {
    steps' := LoneSteps(steps, s.entry, last, s.byRedis, now, max, w);
    NextOfRedisHalf(s, now, max, w);
  }

  function LastOf(calls: seq<int>): int {
    if calls == [] then -1 else calls[|calls| - 1]
  }

  /** While Redis is up its half of a run is a run of the two-step protocol with a single caller. */
  lemma {:induction false} RedisHalf(calls: seq<int>, max: int, w: int, faults: Weather) returns (steps: seq<Redis.Step>)
    requires Clocked(calls) && RedisUp(calls, faults)
    ensures RedisAt(steps, Run(calls, max, w, faults), LastOf(calls), max, w)
  {
    steps := [];
    if calls != [] {
      var before, now := calls[..|calls| - 1], calls[|calls| - 1];
      Prefix(calls, faults);
      steps := RedisHalf(before, max, w, faults);
      steps := RedisStep(steps, Run(before, max, w, faults), LastOf(before), now, max, w);
    }
  }

  /** The calls Redis denied, none after last, and what the in-memory limiter made of them. */
  ghost predicate MemoryOf(denied: seq<int>, times: seq<int>, byMemory: seq<int>, last: int, max: int, w: int) {
    && Memory.Run(denied, max, w) == (times, byMemory)
    && Nondecreasing(denied)
    && forall i :: 0 <= i < |denied| ==> denied[i] <= last
  }

  /** The memory half of s is a run of the in-memory limiter over the calls Redis denied. */
  ghost predicate MemoryAt(s: World, last: int, max: int, w: int) {
    MemoryOf(s.denied, s.times, s.byMemory, last, max, w)
  }

  lemma DeniedOnce(denied: seq<int>, times: seq<int>, byMemory: seq<int>, last: int, now: int, max: int, w: int)
    requires MemoryOf(denied, times, byMemory, last, max, w) && last <= now
    ensures MemoryOf(denied, times, byMemory, now, max, w)
    ensures var (times', v) := Memory.Decide(times, now, max, w);
            MemoryOf(denied + [now], times', if v == Memory.Allowed then byMemory + [now] else byMemory, now, max, w)
  {
    Memory.RunAppend(denied, now, max, w);
  }

  lemma NextOfMemoryHalf(s: World, now: int, max: int, w: int, fault: Redis.Fault)
    ensures var n, (times, v) := Next(s, now, max, w, fault), Memory.Decide(s.times, now, max, w);
            || (n.denied, n.times, n.byMemory) == (s.denied, s.times, s.byMemory)
            || (n.denied, n.times, n.byMemory)
               == (s.denied + [now], times, if v == Memory.Allowed then s.byMemory + [now] else s.byMemory)
  {
  }

  lemma MemoryStep(s: World, last: int, now: int, max: int, w: int, fault: Redis.Fault)
    requires MemoryAt(s, last, max, w) && last <= now
    ensures MemoryAt(Next(s, now, max, w, fault), now, max, w)
  {
    DeniedOnce(s.denied, s.times, s.byMemory, last, now, max, w);
    NextOfMemoryHalf(s, now, max, w, fault);
  }

  /** The other half is a run of the in-memory limiter over the calls Redis denied, whatever goes wrong. */
  lemma {:induction false} MemoryHalf(calls: seq<int>, max: int, w: int, faults: Weather)
    requires Clocked(calls)
    ensures MemoryAt(Run(calls, max, w, faults), LastOf(calls), max, w)
  {
    if calls != [] {
      var before, now := calls[..|calls| - 1], calls[|calls| - 1];
      Prefix(calls, faults);
      MemoryHalf(before, max, w, faults);
      MemoryStep(Run(before, max, w, faults), LastOf(before), now, max, w, faults(now));
    }
  }

  // ---------- at most twice the limit ----------

  /** A call joins the history of at most one of the two limiters. */
  lemma OneLimiterAdmits(s: World, now: int, max: int, w: int, fault: Redis.Fault)
    ensures var n := Next(s, now, max, w, fault);
            || (n.admitted, n.byRedis, n.byMemory) == (s.admitted, s.byRedis, s.byMemory)
            || (n.admitted, n.byRedis, n.byMemory) == (s.admitted + [now], s.byRedis + [now], s.byMemory)
            || (n.admitted, n.byRedis, n.byMemory) == (s.admitted + [now], s.byRedis, s.byMemory + [now])
  {
  }

  /** The admissions in an interval are those by Redis and those by the memory limiter. */
  ghost predicate Adds(s: World, from: int, to: int) {
    InInterval(s.admitted, from, to) == InInterval(s.byRedis, from, to) + InInterval(s.byMemory, from, to)
  }

  lemma NextAdds(s: World, now: int, max: int, w: int, fault: Redis.Fault, from: int, to: int)
    requires Adds(s, from, to)
    ensures Adds(Next(s, now, max, w, fault), from, to)
  {
    OneLimiterAdmits(s, now, max, w, fault);
    IntervalAppend(s.admitted, now, from, to);
    IntervalAppend(s.byRedis, now, from, to);
    IntervalAppend(s.byMemory, now, from, to);
  }

  lemma {:induction false} AdmissionsAdd(calls: seq<int>, max: int, w: int, faults: Weather, from: int, to: int)
    ensures Adds(Run(calls, max, w, faults), from, to)
  {
    if calls != [] {
      var before, now := calls[..|calls| - 1], calls[|calls| - 1];
      AdmissionsAdd(before, max, w, faults, from, to);
      NextAdds(Run(before, max, w, faults), now, max, w, faults(now), from, to);
    }
  }

  lemma RedisBound(calls: seq<int>, max: int, w: int, faults: Weather, t: int)
    requires Clocked(calls) && RedisUp(calls, faults) && max >= 1 && w > 0
    ensures WindowLoad(Run(calls, max, w, faults).byRedis, t, w) <= max
  {
    var steps := RedisHalf(calls, max, w, faults);
    Redis.WindowBound(steps, max, w, 1, t);
  }

  lemma MemoryBound(calls: seq<int>, max: int, w: int, faults: Weather, t: int)
    requires Clocked(calls) && max >= 1 && w > 0
    ensures WindowLoad(Run(calls, max, w, faults).byMemory, t, w) <= max
  {
    MemoryHalf(calls, max, w, faults);
    Memory.WindowBound(Run(calls, max, w, faults).denied, max, w, t);
  }

  lemma LoadsAdd(s: World, t: int, w: int)
    requires Adds(s, t - w, t)
    ensures WindowLoad(s.admitted, t, w) == WindowLoad(s.byRedis, t, w) + WindowLoad(s.byMemory, t, w)
  {
  }

  /** While Redis is up no window sees more than twice the configured number of requests pass. */
  lemma AtMostTwiceTheLimit(calls: seq<int>, max: int, w: int, faults: Weather, t: int)
    requires Clocked(calls) && RedisUp(calls, faults) && max >= 1 && w > 0
    ensures WindowLoad(Run(calls, max, w, faults).admitted, t, w) <= 2 * max
  {
    RedisBound(calls, max, w, faults, t);
    MemoryBound(calls, max, w, faults, t);
    AdmissionsAdd(calls, max, w, faults, t - w, t);
    LoadsAdd(Run(calls, max, w, faults), t, w);
  }

  // ---------- when the configured limit is kept ----------

  lemma SparsePrefix(ts: seq<int>, t: int, max: int, w: int)
    requires Sparse(ts + [t], max, w)
    ensures Sparse(ts, max, w) && WindowLoad(ts + [t], t, w) <= max
  {
    forall x ensures WindowLoad(ts, x, w) <= max {
      assert WindowLoad(ts + [t], x, w) <= max;
      IntervalAppend(ts, t, x - w, x);
    }
  }

  lemma NothingIsSparse(max: int, w: int)
    requires max >= 0
    ensures Sparse([], max, w)
  {
    forall t ensures WindowLoad([], t, w) <= max {
    }
  }

  /** Everything passed so far, and it was Redis that let it pass. */
  ghost predicate AllByRedis(s: World, calls: seq<int>) {
    s.admitted == calls && s.times == [] && forall x :: x in s.entry.stamps ==> x in calls
  }

  /** Redis counts no more than the calls of the last window. */
  lemma CountsRecentCalls(e: Redis.Entry, calls: seq<int>, now: int, w: int)
    requires Clocked(calls) && (forall x :: x in e.stamps ==> x in calls)
    ensures |Redis.Pruned(e, now, w).stamps| <= |After(calls, now - w)|
  {
    var recent, held := After(calls, now - w), Redis.Pruned(e, now, w).stamps;
    FilterMembers(calls, (t: int) => t > now - w);
    forall x | x in held ensures x in recent {
      assert x in calls && x >= 0;
    }
    Redis.SetOfIsSmall(recent);
    Redis.SubsetIsSmall(held, set x | x in recent);
  }

  lemma RecentCalls(calls: seq<int>, now: int, w: int)
    requires Clocked(calls + [now])
    ensures Clocked(calls)
    ensures WindowLoad(calls + [now], now, w) == |After(calls, now - w)| + if w > 0 then 1 else 0
  {
    forall i | 0 <= i < |calls| ensures calls[i] == (calls + [now])[i] {
    }
    assert (calls + [now])[|calls|] == now;
    IntervalAppend(calls, now, now - w, now);
    IntervalIsAfter(calls, now - w, now);
  }

  /** A call of which Redis counts fewer than the limit passes there; otherwise an empty memory list lets it pass. */
  lemma EmptyMemoryPasses(s: World, now: int, max: int, w: int, fault: Redis.Fault)
    requires s.times == [] && max >= 1
    ensures var n := Next(s, now, max, w, fault);
            && n.admitted == s.admitted + [now]
            && (|Redis.Pruned(s.entry, now, w).stamps| < max ==>
                  n.times == [] && forall x :: x in n.entry.stamps ==> x in s.entry.stamps || x == now)
  {
  }

  /** One more call passes in any case, and by Redis if the last window still holds no more than the limit. */
  lemma NextAfterSparse(s: World, calls: seq<int>, now: int, max: int, w: int, fault: Redis.Fault)
    requires Clocked(calls + [now]) && AllByRedis(s, calls) && max >= 1 && w > 0
    ensures Next(s, now, max, w, fault).admitted == calls + [now]
    ensures WindowLoad(calls + [now], now, w) <= max ==> AllByRedis(Next(s, now, max, w, fault), calls + [now])
  {
    RecentCalls(calls, now, w);
    CountsRecentCalls(s.entry, calls, now, w);
    EmptyMemoryPasses(s, now, max, w, fault);
  }

  /** As long as no window holds more calls than the limit, Redis lets everything pass, whatever goes wrong. */
  lemma {:induction false} SparsePasses(calls: seq<int>, max: int, w: int, faults: Weather)
    requires Clocked(calls) && max >= 1 && w > 0 && Sparse(calls, max, w)
    ensures AllByRedis(Run(calls, max, w, faults), calls)
  {
    if calls != [] {
      var before, now := calls[..|calls| - 1], calls[|calls| - 1];
      assert calls == before + [now];
      RecentCalls(before, now, w);
      SparsePrefix(before, now, max, w);
      SparsePasses(before, max, w, faults);
      NextAfterSparse(Run(before, max, w, faults), before, now, max, w, faults(now));
    }
  }

  lemma DenseGrows(admitted: seq<int>, s: World, now: int, max: int, w: int, fault: Redis.Fault)
    requires s.admitted == admitted && !Sparse(admitted, max, w)
    ensures !Sparse(Next(s, now, max, w, fault).admitted, max, w)
  {
    OneLimiterAdmits(s, now, max, w, fault);
    if Sparse(admitted + [now], max, w) {
      SparsePrefix(admitted, now, max, w);
    }
  }

  /** The first call that makes some window exceed the limit passes too, since the in-memory limiter knows of none before it. */
  lemma {:induction false} DensePasses(calls: seq<int>, max: int, w: int, faults: Weather)
    requires Clocked(calls) && max >= 1 && w > 0 && !Sparse(calls, max, w)
    ensures !Sparse(Run(calls, max, w, faults).admitted, max, w)
  {
    NothingIsSparse(max, w);
    if calls != [] {
      var before, now := calls[..|calls| - 1], calls[|calls| - 1];
      var s := Run(before, max, w, faults);
      assert calls == before + [now];
      RecentCalls(before, now, w);
      if Sparse(before, max, w) {
        SparsePasses(before, max, w, faults);
        NextAfterSparse(s, before, now, max, w, faults(now));
      } else {
        DensePasses(before, max, w, faults);
        DenseGrows(s.admitted, s, now, max, w, faults(now));
      }
    }
  }

  /**
   In every run, and whatever goes wrong with Redis at any call, the requests that pass respect the
   configured limit in every window exactly when the requests that arrive do: the two limiters together
   enforce no more than twice the limit, never the limit itself.
   */
  lemma LimitIsKeptIff(calls: seq<int>, max: int, w: int, faults: Weather)
    requires Clocked(calls) && max >= 1 && w > 0
    ensures Sparse(Run(calls, max, w, faults).admitted, max, w) <==> Sparse(calls, max, w)
  {
    if Sparse(calls, max, w) {
      SparsePasses(calls, max, w, faults);
    } else {
      DensePasses(calls, max, w, faults);
    }
  }

  // ---------- a burst ----------

  function Min(a: int, b: int): int { if a <= b then a else b }

  ghost predicate Burst(calls: seq<int>, w: int) {
    Clocked(calls) && forall i :: 0 <= i < |calls| ==> 0 <= calls[i] < w
  }

  lemma NothingExpires(ts: seq<int>, now: int, w: int)
    requires now < w && forall i :: 0 <= i < |ts| ==> ts[i] >= 0
    ensures After(ts, now - w) == ts
  {
    AfterAll(ts, now - w);
  }

  /** After n requests of a burst, none later than last: Redis holds min(n, max) and the memory limiter the rest, up to max. */
  ghost predicate BurstAt(s: World, n: nat, last: int, max: int, w: int) {
    && |s.entry.stamps| == Min(n, max)
    && (forall x :: x in s.entry.stamps ==> 0 <= x <= last)
    && (s.entry.expiry.Some? ==> s.entry.expiry.value > w)
    && |s.times| == Min(n, 2 * max) - Min(n, max)
    && (forall i :: 0 <= i < |s.times| ==> s.times[i] >= 0)
    && |s.admitted| == Min(n, 2 * max)
  }

  lemma BurstStep(s: World, n: nat, last: int, now: int, max: int, w: int)
    requires BurstAt(s, n, last, max, w) && -1 <= last < now < w && max >= 1
    ensures BurstAt(Next(s, now, max, w, Redis.NoFault), n + 1, now, max, w)
  {
    assert Redis.Pruned(s.entry, now, w).stamps == s.entry.stamps;
    assert now !in s.entry.stamps;
    NothingExpires(s.times, now, w);
  }

  /** Within one window Redis lets the first max requests pass and the memory limiter the next max. */
  lemma {:induction false} BurstSplits(calls: seq<int>, max: int, w: int, faults: Weather)
    requires Burst(calls, w) && RedisUp(calls, faults) && max >= 1 && w > 0
    ensures BurstAt(Run(calls, max, w, faults), |calls|, LastOf(calls), max, w)
  {
    if calls != [] {
      var before := calls[..|calls| - 1];
      Prefix(calls, faults);
      BurstSplits(before, max, w, faults);
      BurstStep(Run(before, max, w, faults), |before|, LastOf(before), calls[|calls| - 1], max, w);
    }
  }

  lemma FailingOpenAdmits(s: World, now: int, max: int, w: int, fault: Redis.Fault)
    requires fault.NoClient? || fault.AtPipeline?
    ensures Next(s, now, max, w, fault).admitted == s.admitted + [now]
  {
  }

  /** Without a client, or with every pipeline failing, all requests of any run pass: the in-memory limiter is not asked. */
  lemma {:induction false} FailingOpenPassesAll(calls: seq<int>, max: int, w: int, faults: Weather)
    requires forall i :: 0 <= i < |calls| ==> faults(calls[i]).NoClient? || faults(calls[i]).AtPipeline?
    ensures Run(calls, max, w, faults).admitted == calls
  {
    if calls != [] {
      var before, now := calls[..|calls| - 1], calls[|calls| - 1];
      assert calls == before + [now];
      FailingOpenPassesAll(before, max, w, faults);
      assert faults(calls[|calls| - 1]).NoClient? || faults(calls[|calls| - 1]).AtPipeline?;
      FailingOpenAdmits(Run(before, max, w, faults), now, max, w, faults(now));
    }
  }

  /** How many requests of a burst within one window pass while Redis is up: twice the limit. */
  lemma BurstPasses(calls: seq<int>, max: int, w: int, faults: Weather)
    requires Burst(calls, w) && RedisUp(calls, faults) && max >= 1 && w > 0
    ensures |Run(calls, max, w, faults).admitted| == Min(|calls|, 2 * max)
  {
    BurstSplits(calls, max, w, faults);
  }

  // ---------- several clients and paths ----------

  datatype Visit = Visit(ip: string, path: string, now: int)

  /** The Redis keys, the in-memory lists, and who was admitted. */
  datatype Site = Site(entries: map<string, Redis.Entry>, lists: Memory.Tables, admitted: seq<Visit>)

  function EntryAt(entries: map<string, Redis.Entry>, key: string): Redis.Entry {
    if key in entries then entries[key] else Redis.EMPTY
  }

  /** What dispatch does to both stores: it works on the entry and the list of its own client and path. */
  function NextVisit(s: Site, v: Visit, max: int, w: int, fault: Redis.Fault): Site {
    var key := KeyOf(v.ip, v.path);
    var (e, allowed, remaining) := Redis.Outcome(EntryAt(s.entries, key), max, w, v.now, fault);
    if allowed then Site(s.entries[key := e], s.lists, s.admitted + [v])
    else
      var (times, verdict) := Memory.Decide(Memory.Lookup(s.lists, v.ip, v.path), v.now, max, w);
      Site(s.entries[key := e], Memory.Put(s.lists, v.ip, v.path, times),
           if verdict == Memory.Allowed then s.admitted + [v] else s.admitted)
  }

  /** The limits of a path, in microseconds; only limited paths are visited. */
  function LimitOf(path: string): (int, int)
    requires RateConfig(path).Some?
  {
    var Config(max, seconds) := RateConfig(path).value;
    (max, seconds * 1_000_000)
  }

  /** Clients are hosts, in which no slash occurs, and the paths are limited ones. */
  ghost predicate Real(visits: seq<Visit>) {
    forall i :: 0 <= i < |visits| ==> '/' !in visits[i].ip && RateConfig(visits[i].path).Some?
  }

  function RunSite(visits: seq<Visit>, faults: Weather): Site
    requires Real(visits)
  {
    if visits == [] then Site(map[], map[], [])
    else
      var v := visits[|visits| - 1];
      NextVisit(RunSite(visits[..|visits| - 1], faults), v, LimitOf(v.path).0, LimitOf(v.path).1, faults(v.now))
  }

  /** The times of the visits of one client to one path. */
  function TimesOf(visits: seq<Visit>, ip: string, path: string): seq<int> {
    if visits == [] then []
    else
      var v := visits[|visits| - 1];
      TimesOf(visits[..|visits| - 1], ip, path) + if v.ip == ip && v.path == path then [v.now] else []
  }

  lemma TimesOfAppend(visits: seq<Visit>, v: Visit, ip: string, path: string)
    ensures TimesOf(visits + [v], ip, path)
            == TimesOf(visits, ip, path) + if v.ip == ip && v.path == path then [v.now] else []
  {
    assert (visits + [v])[..|visits|] == visits;
  }

  lemma LimitedPathsStartWithSlash(path: string)
    requires RateConfig(path).Some?
    ensures path != [] && path[0] == '/'
  {
  }

  /** The first slash of a key is where its path starts. */
  lemma KeysDiffer(ip: string, path: string, ip': string, path': string)
    requires '/' !in ip && '/' !in ip' && path != [] && path[0] == '/' && path' != [] && path'[0] == '/'
    requires KeyOf(ip, path) == KeyOf(ip', path')
    ensures ip == ip' && path == path'
  {
    var pre := "ratelimit:" + "ip:";
    var a, b := ip + ":" + path, ip' + ":" + path';
    assert KeyOf(ip, path) == pre + a && KeyOf(ip', path') == pre + b;
    assert a == (pre + a)[|pre|..] && b == (pre + b)[|pre|..];
    SplitAtSlash(ip, path, ip', path');
  }

  lemma SplitAtSlash(ip: string, path: string, ip': string, path': string)
    requires '/' !in ip && '/' !in ip' && path != [] && path[0] == '/' && path' != [] && path'[0] == '/'
    requires ip + ":" + path == ip' + ":" + path'
    ensures ip == ip' && path == path'
  {
    var a, b := ip + ":" + path, ip' + ":" + path';
    assert a[|ip| + 1] == '/' && b[|ip'| + 1] == '/';
    assert forall i :: 0 <= i <= |ip| ==> a[i] != '/';
    assert forall i :: 0 <= i <= |ip'| ==> b[i] != '/';
    assert |ip| == |ip'|;
    assert ip == a[..|ip|] && ip' == b[..|ip|];
    assert path == a[|ip| + 1..] && path' == b[|ip| + 1..];
  }

  /** The site, as one client and path see it. */
  ghost predicate Seen(site: Site, s: World, ip: string, path: string) {
    && EntryAt(site.entries, KeyOf(ip, path)) == s.entry
    && Memory.Lookup(site.lists, ip, path) == s.times
    && TimesOf(site.admitted, ip, path) == s.admitted
  }

  lemma OwnVisit(site: Site, s: World, v: Visit, max: int, w: int, fault: Redis.Fault)
    requires Seen(site, s, v.ip, v.path)
    ensures Seen(NextVisit(site, v, max, w, fault), Next(s, v.now, max, w, fault), v.ip, v.path)
  {
    var (times, verdict) := Memory.Decide(s.times, v.now, max, w);
    Memory.PutLookup(site.lists, v.ip, v.path, times, v.ip, v.path);
    TimesOfAppend(site.admitted, v, v.ip, v.path);
  }

  lemma OthersVisit(site: Site, s: World, v: Visit, max: int, w: int, fault: Redis.Fault, ip: string, path: string)
    requires Seen(site, s, ip, path) && (v.ip != ip || v.path != path) && KeyOf(v.ip, v.path) != KeyOf(ip, path)
    ensures Seen(NextVisit(site, v, max, w, fault), s, ip, path)
  {
    var (times, verdict) := Memory.Decide(Memory.Lookup(site.lists, v.ip, v.path), v.now, max, w);
    Memory.PutLookup(site.lists, v.ip, v.path, times, ip, path);
    TimesOfAppend(site.admitted, v, ip, path);
    assert TimesOf(site.admitted, ip, path) + [] == TimesOf(site.admitted, ip, path);
  }

  lemma RunAppend(calls: seq<int>, now: int, max: int, w: int, faults: Weather)
    ensures Run(calls + [now], max, w, faults) == Next(Run(calls, max, w, faults), now, max, w, faults(now))
  {
    assert (calls + [now])[..|calls|] == calls;
  }

  /** Each client and path is served as if there were no other. */
  lemma {:induction false} ClientsAreIndependent(visits: seq<Visit>, faults: Weather, ip: string, path: string)
    requires Real(visits) && '/' !in ip && RateConfig(path).Some?
    ensures Seen(RunSite(visits, faults), Run(TimesOf(visits, ip, path), LimitOf(path).0, LimitOf(path).1, faults), ip, path)
  {
    if visits != [] {
      var before, v := visits[..|visits| - 1], visits[|visits| - 1];
      var (max, w) := LimitOf(path);
      var calls := TimesOf(before, ip, path);
      var site, s := RunSite(before, faults), Run(calls, max, w, faults);
      ClientsAreIndependent(before, faults, ip, path);
      if v.ip == ip && v.path == path {
        OwnVisit(site, s, v, max, w, faults(v.now));
        RunAppend(calls, v.now, max, w, faults);
      } else {
        LimitedPathsStartWithSlash(path);
        LimitedPathsStartWithSlash(v.path);
        if KeyOf(v.ip, v.path) == KeyOf(ip, path) {
          KeysDiffer(v.ip, v.path, ip, path);
        }
        OthersVisit(site, s, v, LimitOf(v.path).0, LimitOf(v.path).1, faults(v.now), ip, path);
        assert calls + [] == calls;
      }
    }
  }

  /** Ten logins, twenty callbacks and five demo logins a minute, five new keys in five minutes. */
  lemma ConfiguredLimits(rest: string)
    ensures RateConfig("/api/v1/auth/login" + rest) == Some(Config(10, 60))
    ensures RateConfig("/api/v1/auth/callback" + rest) == Some(Config(20, 60))
    ensures RateConfig("/api/v1/auth/demo-login" + rest) == Some(Config(5, 60))
    ensures RateConfig("/api/v1/auth/api-key" + rest) == Some(Config(5, 300))
  {
    assert "/api/v1/auth/login"[13] == 'l' && "/api/v1/auth/callback"[13] == 'c';
    assert "/api/v1/auth/demo-login"[13] == 'd' && "/api/v1/auth/api-key"[13] == 'a';
    ConfigOf("/api/v1/auth/login", rest);
    ConfigOf("/api/v1/auth/callback", rest);
    ConfigOf("/api/v1/auth/demo-login", rest);
    ConfigOf("/api/v1/auth/api-key", rest);
  }

  /** No other path is limited. */
  lemma NoOtherLimits(path: string)
    requires RateConfig(path).Some?
    ensures exists rest ::
              || path == "/api/v1/auth/login" + rest || path == "/api/v1/auth/callback" + rest
              || path == "/api/v1/auth/demo-login" + rest || path == "/api/v1/auth/api-key" + rest
  {
    if "/api/v1/auth/login" <= path {
      assert path == "/api/v1/auth/login" + path[|"/api/v1/auth/login"|..];
    } else if "/api/v1/auth/callback" <= path {
      assert path == "/api/v1/auth/callback" + path[|"/api/v1/auth/callback"|..];
    } else if "/api/v1/auth/demo-login" <= path {
      assert path == "/api/v1/auth/demo-login" + path[|"/api/v1/auth/demo-login"|..];
    } else {
      assert path == "/api/v1/auth/api-key" + path[|"/api/v1/auth/api-key"|..];
    }
  }

  /** What follows a configured prefix does not matter. */
  lemma ConfigOf(prefix: string, rest: string)
    requires RateConfig(prefix).Some?
    ensures RateConfig(prefix + rest) == RateConfig(prefix)
  {
    assert |prefix| > 13 && (prefix + rest)[13] == prefix[13];
  }

  lemma LimitsArePositive(path: string)
    requires RateConfig(path).Some?
    ensures LimitOf(path).0 >= 1 && LimitOf(path).1 > 0
  {
  }

  /**
   On a site with any number of clients and paths, what passes from one client to one path stays within
   twice the limit while Redis is up, and within the limit exactly when what arrives does.
   */
  lemma PerClientLimits(visits: seq<Visit>, faults: Weather, ip: string, path: string)
    requires Real(visits) && '/' !in ip && RateConfig(path).Some? && Clocked(TimesOf(visits, ip, path))
    ensures var (max, w) := LimitOf(path);
            var arrived, passed := TimesOf(visits, ip, path), TimesOf(RunSite(visits, faults).admitted, ip, path);
            && (RedisUp(arrived, faults) ==> Sparse(passed, 2 * max, w))
            && (Sparse(passed, max, w) <==> Sparse(arrived, max, w))
  {
    var max, w := LimitOf(path).0, LimitOf(path).1;
    var calls := TimesOf(visits, ip, path);
    ClientsAreIndependent(visits, faults, ip, path);
    LimitsArePositive(path);
    LimitIsKeptIff(calls, max, w, faults);
    if RedisUp(calls, faults) {
      var passed := Run(calls, max, w, faults).admitted;
      forall t ensures WindowLoad(passed, t, w) <= 2 * max {
        AtMostTwiceTheLimit(calls, max, w, faults, t);
      }
    }
  }
}
