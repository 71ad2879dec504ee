/**
 The fixed-window rate limiters (backend/internal/middleware/rate_limiter.go and rate_limit.go).

 Every replica of the backend increments one shared Redis counter per (prefix, id, bucket); when the
 increment fails it counts in a process-local map instead, against a tighter limit.  Two limiters may
 share a prefix and therefore a counter (`router.go` runs two under "api", at 1000 and at 60).

 Instants and windows are in nanoseconds, as `time.Time` and `time.Duration` are.  A request is timed more
 than once: when it reads its bucket, when `memIncr` reads the clock again, by Redis's own clock when the
 INCR is executed, and when Retry-After is computed.  Nothing orders these instants; `WithinSpread` says how
 far apart the requests on one counter may be, and `SpreadExact` for which spreads the bounds hold.
 */
module RateLimiters {
  import opened Arithmetic
  import opened Wrappers

  const SECOND := 1_000_000_000

  datatype Key = Key(prefix: string, id: string, bucket: int)
  datatype MemEntry = MemEntry(count: int, expiresAt: int)
  datatype RedisEntry = RedisEntry(count: int, expiresAt: Option<int>)

  type MemTable = map<Key, MemEntry>
  type RedisTable = map<Key, RedisEntry>

  function Unix(now: nat): nat { now / SECOND }

  function WindowSecs(window: nat): (s: nat)
    ensures s >= 1
  {
    if window / SECOND < 1 then 60 else window / SECOND
  }

  function Bucket(now: nat, window: nat): nat { Unix(now) / WindowSecs(window) }

  /** How long a bucket lasts. */
  function BucketLength(window: nat): (l: nat)
    ensures l >= SECOND
  {
    WindowSecs(window) * SECOND
  }

  /** `limit/2` or 3, whichever is lower, but at least 1. */
  function IpMemLimit(limit: nat): nat {
    if limit / 2 > 3 then 3 else if limit / 2 < 1 then 1 else limit / 2
  }

  const DEFAULT_TENANT_LIMIT := 200
  const PAID_TENANT_LIMIT := 1000
  const TENANT_WINDOW := 60 * SECOND

  datatype LookupError = PlanUnavailable

  /** What `fetchPlan` answers: the monthly price of the tenant's plan, None when it has no plan. */
  type Lookup = Result<Option<int>, LookupError>

  /** The tenant's limit, the default one also when its plan could not be looked up. */
  function TenantLimit(plan: Lookup): nat {
    if plan.Ok? && plan.value.Some? && plan.value.value > 0 then PAID_TENANT_LIMIT else DEFAULT_TENANT_LIMIT
  }

  function TenantMemLimit(limit: nat): nat {
    if limit / 2 < 1 then 1 else limit / 2
  }

  // ---------------------------------------------------------------------------------------------
  // The two counters
  // ---------------------------------------------------------------------------------------------

  function MemBumped(m: MemTable, key: Key, now: int, window: int): MemTable {
    if key !in m || now > m[key].expiresAt
    then m[key := MemEntry(1, now + window)]
    else m[key := m[key].(count := m[key].count + 1)]
  }

  function RedisBumped(m: RedisTable, key: Key, now: int): RedisTable {
    if key !in m || (m[key].expiresAt.Some? && now >= m[key].expiresAt.value)
    then m[key := RedisEntry(1, None)]
    else m[key := m[key].(count := m[key].count + 1)]
  }

  function RedisCount(m: RedisTable, key: Key): int {
    if key in m then m[key].count else 0
  }

  function MemCount(m: MemTable, key: Key): int {
    if key in m then m[key].count else 0
  }

  class MemStore {
    var entries: MemTable

    constructor ()
      ensures entries == map[]
    {
      entries := map[];
    }

    method MemIncr(key: Key, now: int, window: int) returns (count: int)
      modifies this
      ensures entries == MemBumped(old(entries), key, now, window)
      ensures entries == old(entries)[key := entries[key]] && count == entries[key].count
      ensures entries[key] == if key in old(entries) && now <= old(entries)[key].expiresAt
                              then MemEntry(old(entries)[key].count + 1, old(entries)[key].expiresAt) else MemEntry(1, now + window)
    {
      if key !in entries || now > entries[key].expiresAt {
        entries := entries[key := MemEntry(1, now + window)];
        return 1;
      }
      var entry := entries[key];
      entries := entries[key := entry.(count := entry.count + 1)];
      return entry.count + 1;
    }
  }

  class Redis {
    var entries: RedisTable

    constructor ()
      ensures entries == map[]
    {
      entries := map[];
    }

    method Incr(key: Key, now: int) returns (count: int)
      modifies this
      ensures entries == RedisBumped(old(entries), key, now)
      ensures entries == old(entries)[key := entries[key]] && count == entries[key].count
      ensures entries[key] == if key in old(entries) && (old(entries)[key].expiresAt.None? || now < old(entries)[key].expiresAt.value)
                              then RedisEntry(old(entries)[key].count + 1, old(entries)[key].expiresAt) else RedisEntry(1, None)
    {
      if key !in entries || (entries[key].expiresAt.Some? && now >= entries[key].expiresAt.value) {
        entries := entries[key := RedisEntry(1, None)];
      } else {
        entries := entries[key := entries[key].(count := entries[key].count + 1)];
      }
      count := entries[key].count;
    }

    method Expire(key: Key, at: int)
      modifies this
      ensures entries == if key in old(entries) then old(entries)[key := old(entries)[key].(expiresAt := Some(at))] else old(entries)
    {
      if key in entries {
        entries := entries[key := entries[key].(expiresAt := Some(at))];
      }
    }
  }

  // ---------------------------------------------------------------------------------------------
  // One request
  // ---------------------------------------------------------------------------------------------

  /** What becomes of the INCR: answered (the EXPIRE that may follow works or not), failed with or without
      having been applied, or never sent because the process runs without Redis. */
  datatype Fate = Answered(expireWorks: bool) | FailedUnapplied | FailedApplied | NoRedis

  datatype Counters = Counters(redis: RedisTable, mem: MemTable)

  /** The clock reads of one request: naming the bucket, in `memIncr`, by Redis at the INCR, and for Retry-After. */
  datatype Reads = Reads(bucket: nat, mem: nat, redis: int, later: nat)

  /** The counters after one request, and whether it passes. `memLimit` is the limit while Redis is failing. */
  function Handled(c: Counters, key: Key, limit: int, memLimit: int, window: int, memAt: int, redisAt: int, fate: Fate): (Counters, bool) {
    match fate
    case Answered(expireWorks) =>
      var r := RedisBumped(c.redis, key, redisAt);
      var count := r[key].count;
      var r' := if count == 1 && expireWorks then r[key := r[key].(expiresAt := Some(redisAt + 2 * window))] else r;
      (Counters(r', c.mem), count <= limit)
    case NoRedis =>
      var m := MemBumped(c.mem, key, memAt, window);
      (Counters(c.redis, m), m[key].count <= limit)
    case _ =>
      var r := if fate == FailedApplied then RedisBumped(c.redis, key, redisAt) else c.redis;
      var m := MemBumped(c.mem, key, memAt, window);
      (Counters(r, m), m[key].count <= memLimit)
  }

  datatype Decision = Pass | TooMany(retryAfter: int)

  /** The one counter a request increments, both when Redis applied an INCR it did not answer, and what it leaves as it was. */
  ghost predicate Counted(redis: RedisTable, mem: MemTable, redis': RedisTable, mem': MemTable, key: Key, window: nat, at: Reads, fate: Fate) {
    match fate
    case Answered(expireWorks) =>
      && mem' == mem && key in redis' && redis' == redis[key := redis'[key]]
      && var counted := RedisBumped(redis, key, at.redis)[key];
         redis'[key] == if counted.count == 1 && expireWorks then RedisEntry(1, Some(at.redis + 2 * window)) else counted
    case FailedApplied => mem' == MemBumped(mem, key, at.mem, window) && redis' == RedisBumped(redis, key, at.redis)
    case _ => mem' == MemBumped(mem, key, at.mem, window) && redis' == redis
  }

  /** The increment both limiters make, and the EXPIRE that follows the first one on a counter. */
  method CountRequest(rdb: Redis, mem: MemStore, key: Key, window: nat, at: Reads, fate: Fate) returns (count: int)
    modifies rdb, mem
    ensures Counted(old(rdb.entries), old(mem.entries), rdb.entries, mem.entries, key, window, at, fate)
    ensures if fate.Answered? then key in rdb.entries && count == rdb.entries[key].count
            else key in mem.entries && count == mem.entries[key].count
  {
    match fate {
      case NoRedis =>
        count := mem.MemIncr(key, at.mem, window);
      case FailedUnapplied =>
        count := mem.MemIncr(key, at.mem, window);
      case FailedApplied =>
        count := rdb.Incr(key, at.redis);
        count := mem.MemIncr(key, at.mem, window);
      case Answered(expireWorks) =>
        count := rdb.Incr(key, at.redis);
        if count == 1 && expireWorks {
          rdb.Expire(key, at.redis + 2 * window);
        }
    }
  }

  /** What `Counted` leaves behind is what `Handled` says. */
  lemma CountedIsHandled(c: Counters, c': Counters, key: Key, limit: int, memLimit: int, window: nat, at: Reads, fate: Fate)
    requires Counted(c.redis, c.mem, c'.redis, c'.mem, key, window, at, fate)
    ensures var res := Handled(c, key, limit, memLimit, window, at.mem, at.redis, fate);
            && c' == res.0
            && (res.1 <==> match fate
                           case Answered(_) => c'.redis[key].count <= limit
                           case NoRedis => c'.mem[key].count <= limit
                           case _ => c'.mem[key].count <= memLimit)
  {
  }

  /** `redisRateLimiter` */
  method RedisRateLimiter(rdb: Redis, mem: MemStore, prefix: string, limit: nat, window: nat, ip: string,
                          fate: Fate, at: Reads) returns (d: Decision)
    modifies rdb, mem
    ensures var key := Key(prefix, ip, Bucket(at.bucket, window));
            var res := Handled(Counters(old(rdb.entries), old(mem.entries)), key, limit, IpMemLimit(limit), window, at.mem, at.redis, fate);
            && Counters(rdb.entries, mem.entries) == res.0
            && (d == Pass <==> res.1)
    ensures d.TooMany? ==> d.retryAfter == (Bucket(at.bucket, window) + 1) * WindowSecs(window) - Unix(at.later)
    ensures var secs := if window < SECOND then 60 else window / SECOND;
            var bucket := at.bucket / SECOND / secs;
            var key := Key(prefix, ip, bucket);
            && Counted(old(rdb.entries), old(mem.entries), rdb.entries, mem.entries, key, window, at, fate)
            && (d == Pass <==> match fate
                               case Answered(_) => rdb.entries[key].count <= limit
                               case NoRedis => mem.entries[key].count <= limit
                               case _ => mem.entries[key].count <= Max(1, Min(3, limit / 2)))
            && (d.TooMany? ==> d.retryAfter == (bucket + 1) * secs - at.later / SECOND)
  {
    var windowSecs := window / SECOND;
    if windowSecs < 1 {
      windowSecs := 60;
    }
    var memLimit := limit / 2;
    if memLimit > 3 {
      memLimit := 3;
    }
    if memLimit < 1 {
      memLimit := 1;
    }
    hide Counted, Handled, MemBumped, RedisBumped;
    var bucket := at.bucket / SECOND / windowSecs;
    var key := Key(prefix, ip, bucket);
    var allowed: int := if fate == FailedUnapplied || fate == FailedApplied then memLimit else limit;
    ghost var before := Counters(rdb.entries, mem.entries);
    var count := CountRequest(rdb, mem, key, window, at, fate);
    CountedIsHandled(before, Counters(rdb.entries, mem.entries), key, limit, IpMemLimit(limit), window, at, fate);
    if count > allowed {
      return TooMany((bucket + 1) * windowSecs - at.later / SECOND);
    }
    return Pass;
  }

  /** The rate-limit headers of `RateLimitPerTenant`. */
  datatype Headers = Headers(limit: int, remaining: int, reset: int)

  /** The count a request is judged by, as the counter it incremented shows it afterwards. */
  function CountFor(fate: Fate, redis: RedisTable, mem: MemTable, key: Key): int {
    if fate.Answered? then RedisCount(redis, key) else MemCount(mem, key)
  }

  /** While Redis is failing, only a refused request is told about the limit, and then about the halved one. */
  function TenantHeaders(limit: nat, fate: Fate, count: int, resetAt: int): Option<Headers> {
    if fate.Answered? || fate.NoRedis? then Some(Headers(limit, Max(0, limit - count), resetAt))
    else if count > TenantMemLimit(limit) then Some(Headers(TenantMemLimit(limit), 0, resetAt))
    else None
  }

  lemma MinuteBucket(now: nat)
    ensures Bucket(now, TENANT_WINDOW) == now / SECOND / 60
  {
  }

  /** A paid plan has five times the default limit, and a failing Redis halves either. */
  lemma TenantCaps(plan: Lookup)
    ensures var paid := plan.Ok? && plan.value.Some? && plan.value.value > 0;
            && TenantLimit(plan) == (if paid then 1000 else 200)
            && TenantMemLimit(TenantLimit(plan)) == (if paid then 500 else 100)
  {
  }

  /** `RateLimitPerTenant`: a request without a tenant passes uncounted; otherwise the limit follows the plan, and the
      advertised wait is at least one second. */
  method RateLimitPerTenant(rdb: Redis, mem: MemStore, tenant: Option<string>, plan: Lookup,
                            fate: Fate, at: Reads) returns (d: Decision, h: Option<Headers>)
    modifies rdb, mem
    ensures tenant.None? ==> d == Pass && h == None && rdb.entries == old(rdb.entries) && mem.entries == old(mem.entries)
    ensures tenant.Some? ==>
              var key := Key("tenant", tenant.value, Bucket(at.bucket, TENANT_WINDOW));
              var limit := TenantLimit(plan);
              var res := Handled(Counters(old(rdb.entries), old(mem.entries)), key, limit, TenantMemLimit(limit), TENANT_WINDOW, at.mem, at.redis, fate);
              && Counters(rdb.entries, mem.entries) == res.0
              && (d == Pass <==> res.1)
              && h == TenantHeaders(limit, fate, CountFor(fate, rdb.entries, mem.entries, key), (Bucket(at.bucket, TENANT_WINDOW) + 1) * 60)
    ensures d.TooMany? ==> d.retryAfter == Max(1, (Bucket(at.bucket, TENANT_WINDOW) + 1) * 60 - Unix(at.later))
    ensures d.TooMany? ==> h.Some? && h.value.remaining == 0
    ensures tenant.Some? ==>
              var bucket := at.bucket / SECOND / 60;
              var key := Key("tenant", tenant.value, bucket);
              var paid := plan.Ok? && plan.value.Some? && plan.value.value > 0;
              var local := fate != NoRedis && !fate.Answered?;
              var cap := if local then (if paid then 500 else 100) else (if paid then 1000 else 200);
              Counted(old(rdb.entries), old(mem.entries), rdb.entries, mem.entries, key, 60 * SECOND, at, fate) &&
              var count := if fate.Answered? then rdb.entries[key].count else mem.entries[key].count;
              && (d == Pass <==> count <= cap)
              && (d.TooMany? ==> d.retryAfter == Max(1, (bucket + 1) * 60 - at.later / SECOND))
              && h == if local && count <= cap then None else Some(Headers(cap, Max(0, cap - count), (bucket + 1) * 60))
  {
    hide Bucket, Counted, Handled, MemBumped, RedisBumped, TenantLimit, TenantMemLimit;
    if tenant.None? {
      return Pass, None;
    }
    MinuteBucket(at.bucket);
    TenantCaps(plan);
    var limit: int := 200;
    if plan.Ok? && plan.value.Some? && plan.value.value > 0 {
      limit := 1000;
    }
    var bucket := at.bucket / SECOND / 60;
    var key := Key("tenant", tenant.value, bucket);
    var resetAt := (bucket + 1) * 60;
    var retryAfter: int := resetAt - at.later / SECOND;
    if retryAfter < 1 {
      retryAfter := 1;
    }
    ghost var before := Counters(rdb.entries, mem.entries);
    var count := CountRequest(rdb, mem, key, TENANT_WINDOW, at, fate);
    CountedIsHandled(before, Counters(rdb.entries, mem.entries), key, limit, TenantMemLimit(limit), TENANT_WINDOW, at, fate);
    if fate == FailedUnapplied || fate == FailedApplied {
      var conservative := limit / 2;
      if conservative < 1 {
        conservative := 1;
      }
      if count > conservative {
        return TooMany(retryAfter), Some(Headers(conservative, 0, resetAt));
      }
      return Pass, None;
    }
    h := Some(Headers(limit, Max(0, limit - count), resetAt));
    d := if count > limit then TooMany(retryAfter) else Pass;
  }

  // ---------------------------------------------------------------------------------------------
  // Runs of N replicas against one Redis
  // ---------------------------------------------------------------------------------------------

  /** `limit` and `memLimit` are what the limiter that saw the request compared its count with. */
  datatype Request = Request(replica: nat, prefix: string, id: string, limit: nat, memLimit: nat, fate: Fate,
                             at: nat, memAt: nat, redisAt: int)

  datatype System = System(redis: RedisTable, mems: seq<MemTable>)

  function KeyOf(window: nat, r: Request): Key {
    Key(r.prefix, r.id, Bucket(r.at, window))
  }

  function Idle(n: nat): System {
    System(map[], seq(n, i => map[]))
  }

  ghost predicate ValidRun(n: nat, reqs: seq<Request>) {
    forall i :: 0 <= i < |reqs| ==> reqs[i].replica < n
  }

  function Served(window: nat, s: System, r: Request): (System, bool)
    requires r.replica < |s.mems|
  {
    var res := Handled(Counters(s.redis, s.mems[r.replica]), KeyOf(window, r), r.limit, r.memLimit, window, r.memAt, r.redisAt, r.fate);
    (System(res.0.redis, s.mems[r.replica := res.0.mem]), res.1)
  }

  function Replay(window: nat, n: nat, reqs: seq<Request>): (s: System)
    requires ValidRun(n, reqs)
    ensures |s.mems| == n
  {
    if reqs == [] then Idle(n)
    else Served(window, Replay(window, n, reqs[..|reqs| - 1]), reqs[|reqs| - 1]).0
  }

  /** How many requests of the run satisfy `p` and passed. */
  ghost function Admitted(window: nat, n: nat, reqs: seq<Request>, p: Request -> bool): nat
    requires ValidRun(n, reqs)
  {
    if reqs == [] then 0
    else
      var before, r := reqs[..|reqs| - 1], reqs[|reqs| - 1];
      Admitted(window, n, before, p) +
      if p(r) && Served(window, Replay(window, n, before), r).1 then 1 else 0
  }

  /** The limit a local count is compared with: a process without Redis uses the full one. */
  function LocalLimit(r: Request): nat {
    if r.fate == NoRedis then r.limit else r.memLimit
  }

  /** Requests on one counter, seen by limiters whose limits are at most `limit` (shared) and `local` (per replica). */
  function OnKey(window: nat, key: Key, limit: nat, local: nat): Request -> bool {
    (r: Request) => KeyOf(window, r) == key && r.limit <= limit && LocalLimit(r) <= local
  }

  // ---------------------------------------------------------------------------------------------
  // Counters outlive their buckets
  // ---------------------------------------------------------------------------------------------

  lemma BucketSpan(now: nat, window: nat)
    ensures Bucket(now, window) * BucketLength(window) <= now < (Bucket(now, window) + 1) * BucketLength(window)
  {
    Division(now, SECOND);
    Division(now / SECOND, WindowSecs(window));
    NestedSpan(now, now / SECOND, Bucket(now, window), WindowSecs(window), SECOND);
  }

  /** `now` within second `s`, `s` within bucket `b`. */
  lemma NestedSpan(now: nat, s: nat, b: nat, w: nat, unit: nat)
    requires b * w <= s < b * w + w && s * unit <= now < s * unit + unit
    ensures b * (w * unit) <= now < (b + 1) * (w * unit)
  {
    MulMono(b * w, s, unit);
    MulMono(s + 1, (b + 1) * w, unit);
    assert b * w * unit == b * (w * unit);
    assert (b + 1) * w * unit == (b + 1) * (w * unit);
  }

  function BucketStart(window: nat, r: Request): nat {
    Bucket(r.at, window) * BucketLength(window)
  }

  predicate UsesRedis(r: Request) {
    r.fate.Answered? || r.fate == FailedApplied
  }

  predicate UsesLocal(r: Request) {
    !r.fate.Answered?
  }

  /**
   A request whose reads are not far apart: `memIncr` reads the clock in the window that starts with the bucket,
   and Redis executes the INCR within half a window of the read of the bucket, `offset` allowed for its clock.
   */
  ghost predicate Timely(window: nat, offset: int, r: Request) {
    && (UsesLocal(r) ==> BucketStart(window, r) <= r.memAt <= BucketStart(window, r) + window)
    && (UsesRedis(r) ==> 2 * Abs(r.redisAt - (r.at + offset)) <= window)
  }

  ghost predicate TimelyRun(window: nat, offset: int, reqs: seq<Request>) {
    forall i :: 0 <= i < |reqs| ==> Timely(window, offset, reqs[i])
  }

  ghost predicate MemOutlives(window: nat, m: MemTable) {
    forall k :: k in m ==> m[k].expiresAt >= (k.bucket + 1) * BucketLength(window)
  }

  /** By Redis's clock, and by half a window more, so that a request delayed on its way finds the entry too. */
  ghost predicate RedisOutlives(window: nat, offset: int, m: RedisTable) {
    forall k :: k in m && m[k].expiresAt.Some? ==>
      2 * (m[k].expiresAt.value - offset) >= 2 * ((k.bucket + 1) * BucketLength(window)) + window
  }

  /** Nothing expires before the end of the bucket its key names. */
  ghost predicate OutlivesBucket(window: nat, offset: int, s: System) {
    RedisOutlives(window, offset, s.redis) && forall i :: 0 <= i < |s.mems| ==> MemOutlives(window, s.mems[i])
  }

  lemma WindowCovers(window: nat)
    requires window >= SECOND
    ensures BucketLength(window) <= window
  {
    assert window / SECOND * SECOND <= window;
  }

  lemma NextStart(b: nat, length: nat)
    ensures (b + 1) * length == b * length + length
  {
  }

  /** An entry made anywhere in its bucket that lives for a window outlives the bucket. */
  lemma EntryOutlivesBucket(now: nat, window: nat)
    requires window >= SECOND
    ensures now + window >= (Bucket(now, window) + 1) * BucketLength(window)
  {
    BucketSpan(now, window);
    WindowCovers(window);
    NextStart(Bucket(now, window), BucketLength(window));
  }

  lemma ServedOutlives(window: nat, offset: int, s: System, r: Request)
    requires window >= SECOND && r.replica < |s.mems| && Timely(window, offset, r)
    requires RedisOutlives(window, offset, s.redis) && MemOutlives(window, s.mems[r.replica])
    ensures var s' := Served(window, s, r).0;
            RedisOutlives(window, offset, s'.redis) && MemOutlives(window, s'.mems[r.replica])
  {
    hide Bucket, BucketLength;
    EntryOutlivesBucket(r.at, window);
    WindowCovers(window);
    NextStart(Bucket(r.at, window), BucketLength(window));
  }

  lemma OutlivesStep(window: nat, offset: int, s: System, r: Request)
    requires window >= SECOND && r.replica < |s.mems| && Timely(window, offset, r)
    requires OutlivesBucket(window, offset, s)
    ensures OutlivesBucket(window, offset, Served(window, s, r).0)
  {
    hide MemOutlives, RedisOutlives, Handled, Timely;
    ServedOutlives(window, offset, s, r);
  }

  lemma {:induction false} OutlivesAlways(window: nat, offset: int, n: nat, reqs: seq<Request>)
    requires window >= SECOND && ValidRun(n, reqs) && TimelyRun(window, offset, reqs)
    ensures OutlivesBucket(window, offset, Replay(window, n, reqs))
  {
    hide OutlivesBucket, Timely, Served;
    if reqs != [] {
      OutlivesAlways(window, offset, n, reqs[..|reqs| - 1]);
      OutlivesStep(window, offset, Replay(window, n, reqs[..|reqs| - 1]), reqs[|reqs| - 1]);
    } else {
      IdleOutlives(window, offset, n);
    }
  }

  lemma IdleOutlives(window: nat, offset: int, n: nat)
    ensures OutlivesBucket(window, offset, Idle(n))
  {
  }

  // ---------------------------------------------------------------------------------------------
  // How far apart the requests on one counter may be
  // ---------------------------------------------------------------------------------------------

  /** On one counter the later request comes at most so much later: `local` by a replica's clock, `shared` by Redis's. */
  predicate Near(window: nat, a: Request, b: Request, local: int, shared: int) {
    KeyOf(window, a) == KeyOf(window, b) ==>
      && (UsesRedis(a) && UsesRedis(b) ==> b.redisAt <= a.redisAt + shared)
      && (UsesLocal(a) && UsesLocal(b) && a.replica == b.replica ==> b.memAt <= a.memAt + local)
  }

  ghost predicate WithinSpread(window: nat, reqs: seq<Request>, local: int, shared: int) {
    forall i, j :: 0 <= i < j < |reqs| ==> Near(window, reqs[i], reqs[j], local, shared)
  }

  /** No request finds a counter expired that an earlier one on it made: local entries live for a window, Redis's for two. */
  ghost predicate Together(window: nat, reqs: seq<Request>) {
    WithinSpread(window, reqs, window, 2 * window - 1)
  }

  /** Requests that are timely are near enough, however far Redis's clock is from the backend's. */
  lemma TimelyRunsTogether(window: nat, offset: int, reqs: seq<Request>)
    requires window >= SECOND && TimelyRun(window, offset, reqs)
    ensures Together(window, reqs)
  {
    forall i, j | 0 <= i < j < |reqs| ensures Near(window, reqs[i], reqs[j], window, 2 * window - 1) {
      hide Bucket, BucketLength;
      var a, b := reqs[i], reqs[j];
      assert Timely(window, offset, a) && Timely(window, offset, b);
      BucketSpan(a.at, window);
      BucketSpan(b.at, window);
      WindowCovers(window);
      NextStart(Bucket(a.at, window), BucketLength(window));
    }
  }

  // ---------------------------------------------------------------------------------------------
  // Every entry was made by some request
  // ---------------------------------------------------------------------------------------------

  predicate MadeShared(window: nat, r: Request, key: Key, expiresAt: int) {
    UsesRedis(r) && KeyOf(window, r) == key && expiresAt == r.redisAt + 2 * window
  }

  predicate MadeLocal(window: nat, r: Request, replica: nat, key: Key, expiresAt: int) {
    UsesLocal(r) && KeyOf(window, r) == key && r.replica == replica && expiresAt == r.memAt + window
  }

  ghost predicate SharedTraced(window: nat, reqs: seq<Request>, m: RedisTable) {
    forall k :: k in m ==>
      && m[k].count >= 1
      && (m[k].expiresAt.Some? ==> exists i :: 0 <= i < |reqs| && MadeShared(window, reqs[i], k, m[k].expiresAt.value))
  }

  ghost predicate LocalTraced(window: nat, reqs: seq<Request>, replica: nat, m: MemTable) {
    forall k :: k in m ==>
      && m[k].count >= 1
      && exists i :: 0 <= i < |reqs| && MadeLocal(window, reqs[i], replica, k, m[k].expiresAt)
  }

  ghost predicate Traced(window: nat, reqs: seq<Request>, s: System) {
    SharedTraced(window, reqs, s.redis) && forall q :: 0 <= q < |s.mems| ==> LocalTraced(window, reqs, q, s.mems[q])
  }

  lemma TracedLonger(window: nat, reqs: seq<Request>, r: Request, s: System)
    requires Traced(window, reqs, s)
    ensures Traced(window, reqs + [r], s)
  {
    var all := reqs + [r];
    forall k | k in s.redis && s.redis[k].expiresAt.Some?
      ensures exists i :: 0 <= i < |all| && MadeShared(window, all[i], k, s.redis[k].expiresAt.value)
    {
      var i :| 0 <= i < |reqs| && MadeShared(window, reqs[i], k, s.redis[k].expiresAt.value);
      assert MadeShared(window, all[i], k, s.redis[k].expiresAt.value);
    }
    forall q, k | 0 <= q < |s.mems| && k in s.mems[q]
      ensures exists i :: 0 <= i < |all| && MadeLocal(window, all[i], q, k, s.mems[q][k].expiresAt)
    {
      var i :| 0 <= i < |reqs| && MadeLocal(window, reqs[i], q, k, s.mems[q][k].expiresAt);
      assert MadeLocal(window, all[i], q, k, s.mems[q][k].expiresAt);
    }
  }

  lemma TracedStep(window: nat, reqs: seq<Request>, s: System, r: Request)
    requires r.replica < |s.mems| && Traced(window, reqs, s)
    ensures Traced(window, reqs + [r], Served(window, s, r).0)
  {
    hide KeyOf;
    TracedLonger(window, reqs, r, s);
    var all := reqs + [r];
    assert all[|reqs|] == r;
    SharedStep(window, all, s.redis, r);
    LocalStep(window, all, s.mems[r.replica], r);
  }

  lemma SharedStep(window: nat, all: seq<Request>, m: RedisTable, r: Request)
    requires SharedTraced(window, all, m) && |all| > 0 && all[|all| - 1] == r
    ensures UsesRedis(r) ==>
              var key := KeyOf(window, r);
              var m' := RedisBumped(m, key, r.redisAt);
              && SharedTraced(window, all, m')
              && SharedTraced(window, all, m'[key := m'[key].(expiresAt := Some(r.redisAt + 2 * window))])
  {
    assert UsesRedis(r) ==> MadeShared(window, all[|all| - 1], KeyOf(window, r), r.redisAt + 2 * window);
  }

  lemma LocalStep(window: nat, all: seq<Request>, m: MemTable, r: Request)
    requires LocalTraced(window, all, r.replica, m) && |all| > 0 && all[|all| - 1] == r
    ensures UsesLocal(r) ==> LocalTraced(window, all, r.replica, MemBumped(m, KeyOf(window, r), r.memAt, window))
  {
    assert UsesLocal(r) ==> MadeLocal(window, all[|all| - 1], r.replica, KeyOf(window, r), r.memAt + window);
  }

  lemma {:induction false} AlwaysTraced(window: nat, n: nat, reqs: seq<Request>)
    requires ValidRun(n, reqs)
    ensures Traced(window, reqs, Replay(window, n, reqs))
  {
    hide Traced, Served;
    if reqs != [] {
      var before, r := reqs[..|reqs| - 1], reqs[|reqs| - 1];
      AlwaysTraced(window, n, before);
      TracedStep(window, before, Replay(window, n, before), r);
      assert reqs == before + [r];
    } else {
      IdleTraced(window, n);
    }
  }

  lemma IdleTraced(window: nat, n: nat)
    ensures Traced(window, [], Idle(n))
  {
  }

  // ---------------------------------------------------------------------------------------------
  // The bound per bucket
  // ---------------------------------------------------------------------------------------------

  /** The local counts, each capped at `cap`, added over the replicas. */
  function LocalTotal(mems: seq<MemTable>, key: Key, cap: int): int {
    if mems == [] then 0 else Min(MemCount(mems[0], key), cap) + LocalTotal(mems[1..], key, cap)
  }

  /** What the counters have handed out on `key`, each source capped by what it may let pass. */
  function HandedOut(s: System, key: Key, limit: nat, local: nat): int {
    Min(RedisCount(s.redis, key), limit) + LocalTotal(s.mems, key, local)
  }

  lemma {:induction false} LocalTotalUpdate(mems: seq<MemTable>, i: nat, m: MemTable, key: Key, cap: nat)
    requires i < |mems|
    ensures LocalTotal(mems[i := m], key, cap)
         == LocalTotal(mems, key, cap) - Min(MemCount(mems[i], key), cap) + Min(MemCount(m, key), cap)
  {
    if i > 0 {
      assert mems[i := m][1..] == mems[1..][i - 1 := m];
      LocalTotalUpdate(mems[1..], i - 1, m, key, cap);
    } else {
      assert mems[i := m][1..] == mems[1..];
    }
  }

  lemma {:induction false} LocalTotalBound(mems: seq<MemTable>, key: Key, cap: nat)
    ensures LocalTotal(mems, key, cap) <= |mems| * cap
  {
    if mems != [] {
      LocalTotalBound(mems[1..], key, cap);
      assert |mems| * cap == cap + |mems[1..]| * cap;
    }
  }

  lemma {:induction false} LocalTotalIdle(n: nat, key: Key, cap: nat)
    ensures LocalTotal(seq(n, i => map[]), key, cap) == 0
  {
    var mems: seq<MemTable> := seq(n, i => map[]);
    if n > 0 {
      assert mems[1..] == seq(n - 1, i => map[]);
      LocalTotalIdle(n - 1, key, cap);
    }
  }

  /** What the request increments counts up by one: nothing it finds has expired. */
  lemma BumpsCountUp(window: nat, reqs: seq<Request>, s: System, r: Request)
    requires r.replica < |s.mems| && Traced(window, reqs, s) && Together(window, reqs + [r])
    ensures var k, mem := KeyOf(window, r), s.mems[r.replica];
            && (UsesRedis(r) ==> RedisBumped(s.redis, k, r.redisAt)[k].count == RedisCount(s.redis, k) + 1 >= 1)
            && (UsesLocal(r) ==> MemBumped(mem, k, r.memAt, window)[k].count == MemCount(mem, k) + 1 >= 1)
  {
    hide KeyOf;
    var all, k := reqs + [r], KeyOf(window, r);
    assert all[|reqs|] == r;
    assert forall i :: 0 <= i < |reqs| ==> all[i] == reqs[i] && Near(window, all[i], all[|reqs|], window, 2 * window - 1);
    assert LocalTraced(window, reqs, r.replica, s.mems[r.replica]);
  }

  /** The two counters a request may touch: if it passes it was handed a count within its limit that nobody had before. */
  lemma OwnCountersStep(c: Counters, k: Key, key: Key, limit: nat, memLimit: nat, window: nat, memAt: int, redisAt: int, fate: Fate, cap: nat, local: nat)
    requires !fate.Answered? ==> MemBumped(c.mem, k, memAt, window)[k].count == MemCount(c.mem, k) + 1 >= 1
    requires fate.Answered? || fate == FailedApplied ==> RedisBumped(c.redis, k, redisAt)[k].count == RedisCount(c.redis, k) + 1 >= 1
    ensures var (c', passes) := Handled(c, k, limit, memLimit, window, memAt, redisAt, fate);
            var mine := k == key && limit <= cap && (if fate == NoRedis then limit else memLimit) <= local && passes;
            Min(RedisCount(c'.redis, key), cap) + Min(MemCount(c'.mem, key), local)
            >= Min(RedisCount(c.redis, key), cap) + Min(MemCount(c.mem, key), local) + if mine then 1 else 0
  {
  }

  /** Each request that passes was handed a count no other request on its counter was handed. */
  lemma HandedOutStep(window: nat, reqs: seq<Request>, s: System, r: Request, key: Key, limit: nat, local: nat)
    requires r.replica < |s.mems| && Traced(window, reqs, s) && Together(window, reqs + [r])
    ensures var res := Served(window, s, r);
            HandedOut(res.0, key, limit, local) >= HandedOut(s, key, limit, local)
              + if OnKey(window, key, limit, local)(r) && res.1 then 1 else 0
  {
    hide Handled, Traced, Together, MemCount, RedisCount, LocalTotal, RedisBumped, MemBumped;
    BumpsCountUp(window, reqs, s, r);
    OwnCountersStep(Counters(s.redis, s.mems[r.replica]), KeyOf(window, r), key, r.limit, r.memLimit, window, r.memAt, r.redisAt, r.fate, limit, local);
    LocalTotalUpdate(s.mems, r.replica, Served(window, s, r).0.mems[r.replica], key, local);
  }

  lemma {:induction false} AdmittedAtMostHandedOut(window: nat, n: nat, reqs: seq<Request>, key: Key, limit: nat, local: nat)
    requires ValidRun(n, reqs) && Together(window, reqs)
    ensures Admitted(window, n, reqs, OnKey(window, key, limit, local)) <= HandedOut(Replay(window, n, reqs), key, limit, local)
  {
    if reqs == [] {
      LocalTotalIdle(n, key, local);
    } else {
      var before, r := reqs[..|reqs| - 1], reqs[|reqs| - 1];
      assert reqs == before + [r];
      AdmittedAtMostHandedOut(window, n, before, key, limit, local);
      AlwaysTraced(window, n, before);
      HandedOutStep(window, before, Replay(window, n, before), r, key, limit, local);
    }
  }

  /**
   In every run of `n` replicas, whichever increments fail, at most `limit + n * local` requests on one
   counter pass the limiters whose limits are at most `limit` and `local`.  Other limiters may
   increment the same counter at will, and nothing is asked of windows or clocks but that no request on a
   counter comes so late that it finds it expired.
   */
  lemma BucketBound(window: nat, n: nat, reqs: seq<Request>, key: Key, limit: nat, local: nat)
    requires ValidRun(n, reqs) && Together(window, reqs)
    ensures Admitted(window, n, reqs, OnKey(window, key, limit, local)) <= limit + n * local
  {
    AdmittedAtMostHandedOut(window, n, reqs, key, limit, local);
    LocalTotalBound(Replay(window, n, reqs).mems, key, local);
  }

  lemma RunSnoc(window: nat, n: nat, reqs: seq<Request>, r: Request, p: Request -> bool)
    requires ValidRun(n, reqs) && r.replica < n
    ensures ValidRun(n, reqs + [r])
    ensures var res := Served(window, Replay(window, n, reqs), r);
            && Replay(window, n, reqs + [r]) == res.0
            && Admitted(window, n, reqs + [r], p) == Admitted(window, n, reqs, p) + if p(r) && res.1 then 1 else 0
  {
    assert (reqs + [r])[..|reqs|] == reqs;
  }

  // ---------------------------------------------------------------------------------------------
  // For which spreads the bound holds
  // ---------------------------------------------------------------------------------------------

  lemma BeforeAll(window: nat, n: nat, p: Request -> bool)
    ensures ValidRun(n, []) && Replay(window, n, []) == Idle(n) && Admitted(window, n, [], p) == 0
  {
  }

  function Copies(k: nat, r: Request): seq<Request> {
    if k == 0 then [] else Copies(k - 1, r) + [r]
  }

  lemma {:induction false} CopiesAre(k: nat, r: Request)
    ensures |Copies(k, r)| == k && forall i :: 0 <= i < k ==> Copies(k, r)[i] == r
  {
    if k > 0 {
      CopiesAre(k - 1, r);
    }
  }

  /** As many requests at one instant as the limit allows, all counted by Redis, pass. */
  lemma {:induction false} FillShared(window: nat, k: nat, r: Request, p: Request -> bool)
    requires window > 0 && r.replica == 0 && r.fate == Answered(true) && k <= r.limit && p(r)
    ensures var reqs := Copies(k, r);
            && ValidRun(1, reqs) && Admitted(window, 1, reqs, p) == k
            && Replay(window, 1, reqs) == System(if k == 0 then map[] else map[KeyOf(window, r) := RedisEntry(k, Some(r.redisAt + 2 * window))], [map[]])
  {
    hide KeyOf, Replay, Admitted;
    if k == 0 {
      BeforeAll(window, 1, p);
    } else {
      FillShared(window, k - 1, r, p);
      RunSnoc(window, 1, Copies(k - 1, r), r, p);
    }
  }

  lemma LocalOnceMore(key: Key, k: nat, at: int, window: nat)
    requires k > 0
    ensures var before: MemTable := if k == 1 then map[] else map[key := MemEntry(k - 1, at + window)];
            MemBumped(before, key, at, window) == map[key := MemEntry(k, at + window)]
  {
  }

  /** And as many that Redis does not count as the local limit allows pass besides. */
  lemma {:induction false} FillLocal(window: nat, k: nat, reqs: seq<Request>, redis: RedisTable, r: Request, p: Request -> bool)
    requires ValidRun(1, reqs) && Replay(window, 1, reqs) == System(redis, [map[]])
    requires r.replica == 0 && r.fate == FailedUnapplied && k <= r.memLimit && p(r)
    ensures var all := reqs + Copies(k, r);
            && ValidRun(1, all) && Admitted(window, 1, all, p) == Admitted(window, 1, reqs, p) + k
            && Replay(window, 1, all) == System(redis, [if k == 0 then map[] else map[KeyOf(window, r) := MemEntry(k, r.memAt + window)]])
  {
    hide KeyOf, Replay, Admitted;
    if k == 0 {
      assert reqs + Copies(k, r) == reqs;
    } else {
      FillLocal(window, k - 1, reqs, redis, r, p);
      var before := reqs + Copies(k - 1, r);
      assert reqs + Copies(k, r) == before + [r];
      RunSnoc(window, 1, before, r, p);
      LocalOnceMore(KeyOf(window, r), k, r.memAt, window);
    }
  }

  /** The shared limit spent on Redis, the local one on a replica that cannot reach it, and one more request. */
  function Overfull(a: Request, c: Request, last: Request): seq<Request> {
    Copies(a.limit, a) + Copies(a.memLimit, c) + [last]
  }

  /** A limiter at `limit` and `memLimit` sees a request in bucket `Bucket(at)` that Redis answers, by replica 0. */
  function OnRedis(limit: nat, memLimit: nat, at: nat, redisAt: int): Request {
    Request(0, "api", "ip", limit, memLimit, Answered(true), at, at, redisAt)
  }

  function OffRedis(limit: nat, memLimit: nat, at: nat, memAt: nat): Request {
    Request(0, "api", "ip", limit, memLimit, FailedUnapplied, at, memAt, 0)
  }

  lemma Filled(window: nat, a: Request, c: Request, last: Request, p: Request -> bool)
    requires window > 0 && a.replica == c.replica == last.replica == 0
    requires a.fate == Answered(true) && c.fate == FailedUnapplied && c.memLimit == a.memLimit && p(a) && p(c)
    requires a.limit > 0 && a.memLimit > 0 && KeyOf(window, a) == KeyOf(window, c)
    ensures var key, before := KeyOf(window, a), Copies(a.limit, a) + Copies(a.memLimit, c);
            && ValidRun(1, before) && ValidRun(1, Overfull(a, c, last))
            && Replay(window, 1, before) == System(map[key := RedisEntry(a.limit, Some(a.redisAt + 2 * window))], [map[key := MemEntry(a.memLimit, c.memAt + window)]])
            && Admitted(window, 1, Overfull(a, c, last), p)
               == a.limit + a.memLimit + if p(last) && Served(window, Replay(window, 1, before), last).1 then 1 else 0
  {
    hide KeyOf, Replay, Admitted, Served;
    var key := KeyOf(window, a);
    FillShared(window, a.limit, a, p);
    FillLocal(window, a.memLimit, Copies(a.limit, a), map[key := RedisEntry(a.limit, Some(a.redisAt + 2 * window))], c, p);
    RunSnoc(window, 1, Copies(a.limit, a) + Copies(a.memLimit, c), last, p);
  }

  /**
   Why the local reads on one counter may not be further apart: after `limit` requests on Redis and `memLimit` off
   it, one that reads the local clock more than a window after the first finds its entry expired, and passes.
   */
  lemma LateReadExceedsBound(window: nat, limit: nat, memLimit: nat, at: nat, lastAt: nat, memAt: nat, lastMemAt: nat)
    requires window > 0 && limit > 0 && memLimit > 0 && Bucket(at, window) == Bucket(lastAt, window) && lastMemAt > memAt + window
    ensures var run := Overfull(OnRedis(limit, memLimit, at, 0), OffRedis(limit, memLimit, at, memAt), OffRedis(limit, memLimit, lastAt, lastMemAt));
            && ValidRun(1, run) && WithinSpread(window, run, lastMemAt - memAt, 0)
            && Admitted(window, 1, run, OnKey(window, Key("api", "ip", Bucket(at, window)), limit, memLimit)) == limit + 1 * memLimit + 1
  {
    hide Bucket, Replay, Admitted;
    var a, c, last := OnRedis(limit, memLimit, at, 0), OffRedis(limit, memLimit, at, memAt), OffRedis(limit, memLimit, lastAt, lastMemAt);
    Filled(window, a, c, last, OnKey(window, Key("api", "ip", Bucket(at, window)), limit, memLimit));
    OverfullSpread(window, a, c, last, lastMemAt - memAt, 0);
  }

  /** And the same of Redis: an INCR that comes two windows after the first on its counter, by Redis's clock, starts again. */
  lemma LateIncrExceedsBound(window: nat, limit: nat, memLimit: nat, at: nat, lastAt: nat, redisAt: int, lastRedisAt: int)
    requires window > 0 && limit > 0 && memLimit > 0 && Bucket(at, window) == Bucket(lastAt, window) && lastRedisAt >= redisAt + 2 * window
    ensures var run := Overfull(OnRedis(limit, memLimit, at, redisAt), OffRedis(limit, memLimit, at, at), OnRedis(limit, memLimit, lastAt, lastRedisAt));
            && ValidRun(1, run) && WithinSpread(window, run, 0, lastRedisAt - redisAt)
            && Admitted(window, 1, run, OnKey(window, Key("api", "ip", Bucket(at, window)), limit, memLimit)) == limit + 1 * memLimit + 1
  {
    hide Bucket, Replay, Admitted;
    var a, c, last := OnRedis(limit, memLimit, at, redisAt), OffRedis(limit, memLimit, at, at), OnRedis(limit, memLimit, lastAt, lastRedisAt);
    Filled(window, a, c, last, OnKey(window, Key("api", "ip", Bucket(at, window)), limit, memLimit));
    OverfullSpread(window, a, c, last, 0, lastRedisAt - redisAt);
  }

  lemma OverfullSpread(window: nat, a: Request, c: Request, last: Request, local: int, shared: int)
    requires Near(window, a, a, local, shared) && Near(window, a, c, local, shared) && Near(window, c, c, local, shared)
    requires Near(window, a, last, local, shared) && Near(window, c, last, local, shared)
    ensures WithinSpread(window, Overfull(a, c, last), local, shared)
  {
    hide Near;
    CopiesAre(a.limit, a);
    CopiesAre(a.memLimit, c);
  }

  ghost predicate BoundHolds(window: nat, n: nat, reqs: seq<Request>)
    requires ValidRun(n, reqs)
  {
    forall key, limit: nat, local: nat :: Admitted(window, n, reqs, OnKey(window, key, limit, local)) <= limit + n * local
  }

  /** Every run whose requests on one counter are no further apart than that keeps the bound, for all limits. */
  ghost predicate SpreadSafe(window: nat, local: int, shared: int) {
    forall n: nat, reqs :: ValidRun(n, reqs) && WithinSpread(window, reqs, local, shared) ==> BoundHolds(window, n, reqs)
  }

  /**
   Exactly how far apart the requests on one counter may be for the bound to hold: a window by the clock of a
   replica, and less than two by that of Redis.  How Redis's clock is set against the replicas' does not matter.
   */
  lemma SpreadExact(window: nat, local: nat, shared: nat)
    requires window > 0
    ensures SpreadSafe(window, local, shared) <==> local <= window && shared < 2 * window
  {
    hide Admitted, OnKey;
    if local <= window && shared < 2 * window {
      forall n: nat, reqs | ValidRun(n, reqs) && WithinSpread(window, reqs, local, shared) ensures BoundHolds(window, n, reqs) {
        assert Together(window, reqs) by { SpreadWidened(window, reqs, local, shared); }
        forall key, limit: nat, cap: nat ensures Admitted(window, n, reqs, OnKey(window, key, limit, cap)) <= limit + n * cap {
          BucketBound(window, n, reqs, key, limit, cap);
        }
      }
    } else if local > window {
      LateReadExceedsBound(window, 1, 1, 0, 0, 0, local);
      var run := Overfull(OnRedis(1, 1, 0, 0), OffRedis(1, 1, 0, 0), OffRedis(1, 1, 0, local));
      SpreadWider(window, run, local, 0, local, shared);
      assert !BoundHolds(window, 1, run);
    } else {
      LateIncrExceedsBound(window, 1, 1, 0, 0, 0, shared);
      var run := Overfull(OnRedis(1, 1, 0, 0), OffRedis(1, 1, 0, 0), OnRedis(1, 1, 0, shared));
      SpreadWider(window, run, 0, shared, local, shared);
      assert !BoundHolds(window, 1, run);
    }
  }

  lemma SpreadWider(window: nat, reqs: seq<Request>, local: int, shared: int, local': int, shared': int)
    requires WithinSpread(window, reqs, local, shared) && local <= local' && shared <= shared'
    ensures WithinSpread(window, reqs, local', shared')
  {
    forall i, j | 0 <= i < j < |reqs| ensures Near(window, reqs[i], reqs[j], local', shared') {
      assert Near(window, reqs[i], reqs[j], local, shared);
    }
  }

  lemma SpreadWidened(window: nat, reqs: seq<Request>, local: int, shared: int)
    requires WithinSpread(window, reqs, local, shared) && local <= window && shared < 2 * window
    ensures Together(window, reqs)
  {
    SpreadWider(window, reqs, local, shared, window, 2 * window - 1);
  }

  // ---------------------------------------------------------------------------------------------
  // The bound over any interval
  // ---------------------------------------------------------------------------------------------

  /** Requests of one client whose bucket lies in `[lo, hi)`. */
  function InBuckets(window: nat, prefix: string, id: string, limit: nat, local: nat, lo: int, hi: int): Request -> bool {
    (r: Request) => r.prefix == prefix && r.id == id && lo <= Bucket(r.at, window) < hi && r.limit <= limit && LocalLimit(r) <= local
  }

  /** Requests of one client that arrive in `[from, to)`. */
  function InInterval(prefix: string, id: string, limit: nat, local: nat, from: int, to: int): Request -> bool {
    (r: Request) => r.prefix == prefix && r.id == id && from <= r.at < to && r.limit <= limit && LocalLimit(r) <= local
  }

  lemma {:induction false} AdmittedCovered(window: nat, n: nat, reqs: seq<Request>, p: Request -> bool, q1: Request -> bool, q2: Request -> bool)
    requires ValidRun(n, reqs)
    requires forall r :: p(r) ==> q1(r) || q2(r)
    ensures Admitted(window, n, reqs, p) <= Admitted(window, n, reqs, q1) + Admitted(window, n, reqs, q2)
  {
    if reqs != [] {
      AdmittedCovered(window, n, reqs[..|reqs| - 1], p, q1, q2);
    }
  }

  lemma {:induction false} AdmittedNone(window: nat, n: nat, reqs: seq<Request>, p: Request -> bool)
    requires ValidRun(n, reqs)
    requires forall r :: !p(r)
    ensures Admitted(window, n, reqs, p) == 0
  {
    if reqs != [] {
      AdmittedNone(window, n, reqs[..|reqs| - 1], p);
    }
  }

  lemma {:induction false} BucketsBound(window: nat, n: nat, reqs: seq<Request>, prefix: string, id: string, limit: nat, local: nat, lo: int, hi: int)
    requires ValidRun(n, reqs) && Together(window, reqs) && lo <= hi
    ensures Admitted(window, n, reqs, InBuckets(window, prefix, id, limit, local, lo, hi)) <= (hi - lo) * (limit + n * local)
    decreases hi - lo
  {
    var p := InBuckets(window, prefix, id, limit, local, lo, hi);
    if lo == hi {
      AdmittedNone(window, n, reqs, p);
    } else {
      var key := Key(prefix, id, hi - 1);
      AdmittedCovered(window, n, reqs, p, InBuckets(window, prefix, id, limit, local, lo, hi - 1), OnKey(window, key, limit, local));
      BucketsBound(window, n, reqs, prefix, id, limit, local, lo, hi - 1);
      BucketBound(window, n, reqs, key, limit, local);
      assert (hi - lo) * (limit + n * local) == (hi - 1 - lo) * (limit + n * local) + (limit + n * local);
    }
  }

  lemma BucketOfInterval(window: nat, from: nat, k: nat, at: nat)
    requires from <= at < from + k * BucketLength(window)
    ensures Bucket(from, window) <= Bucket(at, window) <= Bucket(from, window) + k
  {
    var b, c, l := Bucket(from, window), Bucket(at, window), BucketLength(window);
    BucketSpan(from, window);
    BucketSpan(at, window);
    assert (b + 1) * l + k * l == (b + k + 1) * l;
    if c < b {
      MulMono(c + 1, b, l);
    } else if c > b + k {
      MulMono(b + k + 1, c, l);
    }
  }

  /** Over any half-open interval of `k` buckets' length, at most `k + 1` times the per-bucket bound passes. */
  lemma IntervalBound(window: nat, n: nat, reqs: seq<Request>, prefix: string, id: string, limit: nat, local: nat, from: nat, k: nat)
    requires ValidRun(n, reqs) && Together(window, reqs)
    ensures Admitted(window, n, reqs, InInterval(prefix, id, limit, local, from, from + k * BucketLength(window)))
         <= (k + 1) * (limit + n * local)
  {
    var p := InInterval(prefix, id, limit, local, from, from + k * BucketLength(window));
    var b := Bucket(from, window);
    var q := InBuckets(window, prefix, id, limit, local, b, b + k + 1);
    var none := (r: Request) => false;
    forall r | p(r) ensures q(r) || none(r) {
      BucketOfInterval(window, from, k, r.at);
    }
    AdmittedCovered(window, n, reqs, p, q, none);
    AdmittedNone(window, n, reqs, none);
    BucketsBound(window, n, reqs, prefix, id, limit, local, b, b + k + 1);
  }

  // ---------------------------------------------------------------------------------------------
  // The limiters the router installs
  // ---------------------------------------------------------------------------------------------

  /** A request as `redisRateLimiter` with this limit handles it. */
  predicate ByIpLimiter(r: Request, limit: nat) {
    r.limit == limit && r.memLimit == IpMemLimit(limit) && r.fate != NoRedis
  }

  /** A request as `RateLimitPerTenant` handles it under some plan. */
  predicate ByTenantLimiter(r: Request) {
    && r.prefix == "tenant"
    && (r.limit == DEFAULT_TENANT_LIMIT || r.limit == PAID_TENANT_LIMIT)
    && r.memLimit == TenantMemLimit(r.limit) && r.fate != NoRedis
  }

  lemma {:induction false} AdmittedMonotone(window: nat, n: nat, reqs: seq<Request>, p: Request -> bool, q: Request -> bool)
    requires ValidRun(n, reqs)
    requires forall r :: p(r) ==> q(r)
    ensures Admitted(window, n, reqs, p) <= Admitted(window, n, reqs, q)
  {
    if reqs != [] {
      AdmittedMonotone(window, n, reqs[..|reqs| - 1], p, q);
    }
  }

  /** An IP limiter at `limit` lets through at most `limit + 3n` requests of one address in one bucket,
      and the login limiter (5 a minute) at most `5 + 2n`. */
  lemma IpLimiterBound(window: nat, n: nat, reqs: seq<Request>, limit: nat, key: Key)
    requires ValidRun(n, reqs) && Together(window, reqs)
    ensures var p := (r: Request) => ByIpLimiter(r, limit) && KeyOf(window, r) == key;
            && Admitted(window, n, reqs, p) <= limit + n * IpMemLimit(limit)
            && Admitted(window, n, reqs, p) <= limit + 3 * n
            && (limit == 5 ==> Admitted(window, n, reqs, p) <= 5 + 2 * n)
  {
    var p := (r: Request) => ByIpLimiter(r, limit) && KeyOf(window, r) == key;
    var local := IpMemLimit(limit);
    AdmittedMonotone(window, n, reqs, p, OnKey(window, key, limit, local));
    BucketBound(window, n, reqs, key, limit, local);
    MulMono(local, 3, n);
  }

  /** However the plan changes mid-bucket, a tenant gets at most `1000 + 500n` requests a minute through,
      and at most `k + 1` times as many in any `k` minutes. */
  lemma TenantLimiterBound(n: nat, reqs: seq<Request>, tenant: string, from: nat, k: nat)
    requires ValidRun(n, reqs) && Together(TENANT_WINDOW, reqs)
    ensures var p := (r: Request) => ByTenantLimiter(r) && r.id == tenant && from <= r.at < from + k * TENANT_WINDOW;
            Admitted(TENANT_WINDOW, n, reqs, p) <= (k + 1) * (PAID_TENANT_LIMIT + n * 500)
    ensures forall bucket :: 
            var p := (r: Request) => ByTenantLimiter(r) && KeyOf(TENANT_WINDOW, r) == Key("tenant", tenant, bucket);
            Admitted(TENANT_WINDOW, n, reqs, p) <= PAID_TENANT_LIMIT + n * 500
  {
    var w := TENANT_WINDOW;
    var p := (r: Request) => ByTenantLimiter(r) && r.id == tenant && from <= r.at < from + k * TENANT_WINDOW;
    AdmittedMonotone(w, n, reqs, p, InInterval("tenant", tenant, PAID_TENANT_LIMIT, 500, from, from + k * BucketLength(w)));
    IntervalBound(w, n, reqs, "tenant", tenant, PAID_TENANT_LIMIT, 500, from, k);
    forall bucket
      ensures var p := (r: Request) => ByTenantLimiter(r) && KeyOf(TENANT_WINDOW, r) == Key("tenant", tenant, bucket);
              Admitted(TENANT_WINDOW, n, reqs, p) <= PAID_TENANT_LIMIT + n * 500
    {
      var p := (r: Request) => ByTenantLimiter(r) && KeyOf(TENANT_WINDOW, r) == Key("tenant", tenant, bucket);
      var key := Key("tenant", tenant, bucket);
      AdmittedMonotone(w, n, reqs, p, OnKey(w, key, PAID_TENANT_LIMIT, 500));
      BucketBound(w, n, reqs, key, PAID_TENANT_LIMIT, 500);
    }
  }

  /** Waiting what Retry-After says, counted from the (possibly later) clock read it was computed from,
      lands in a later bucket; with one clock read the wait is at least a second and lands in the very next. */
  lemma RetryAfterLandsLater(now: nat, later: nat, window: nat)
    requires now <= later
    ensures var wait := (Bucket(now, window) + 1) * WindowSecs(window) - Unix(later);
            && Bucket(later + Max(0, wait) * SECOND, window) > Bucket(now, window)
            && Bucket(later + Max(1, wait) * SECOND, window) > Bucket(now, window)
            && (later == now ==> wait >= 1 && Bucket(later + wait * SECOND, window) == Bucket(now, window) + 1)
  {
    var wait := (Bucket(now, window) + 1) * WindowSecs(window) - Unix(later);
    WaitedBucket(later, Max(0, wait), window, Bucket(now, window) + 1);
    WaitedBucket(later, Max(1, wait), window, Bucket(now, window) + 1);
    if later == now {
      NextBucket(now, window);
    }
  }

  lemma NextBucket(now: nat, window: nat)
    ensures var wait := (Bucket(now, window) + 1) * WindowSecs(window) - Unix(now);
            wait >= 1 && Bucket(now + wait * SECOND, window) == Bucket(now, window) + 1
  {
    var w, b := WindowSecs(window), Bucket(now, window);
    var wait := (b + 1) * w - Unix(now);
    assert Unix(now) < b * w + w;
    assert Unix(now + wait * SECOND) == (b + 1) * w;
    ExactQuotient(b + 1, w);
  }

  lemma WaitedBucket(later: nat, wait: nat, window: nat, b: nat)
    requires Unix(later) + wait >= b * WindowSecs(window)
    ensures Bucket(later + wait * SECOND, window) >= b
  {
    assert (later + wait * SECOND) / SECOND == Unix(later) + wait;
    QuotientAtLeast(Unix(later) + wait, WindowSecs(window), b);
  }
}
