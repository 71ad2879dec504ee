/**
 The read-through cache of a tenant's plan and product count (backend/internal/middleware/plan.go).

 A read first asks Redis; on a miss or a Redis error it reads the database and then writes what it read
 to Redis with a TTL.  The three are separate steps, so changes of the data and invalidations may come in
 between.  Instants are in milliseconds; the backend and Redis share one clock.
 */
module PlanCache {
  import opened Wrappers

  /** What is cached: planCacheTTL is five minutes, productCountTTL one. */
  datatype Cached = Plan | ProductCount

  function Ttl(what: Cached): (ttl: nat) {
    if what == Plan then 300_000 else 60_000
  }

  /** A stored value and the instant Redis drops it. */
  datatype Entry = Entry(value: int, expiresAt: int)

  /** What a GET does: answers, answers with something that does not decode, or fails. */
  datatype GetFate = Answers | Corrupt | Fails

  datatype Error = DatabaseError

  function Looked(cache: map<int, Entry>, key: int, fate: GetFate, now: int): Option<int> {
    if fate == Answers && key in cache && now < cache[key].expiresAt then Some(cache[key].value) else None
  }

  /** The write-through: nothing to write when there is no value (a tenant without a plan), and a SET may fail. */
  function Filled(cache: map<int, Entry>, key: int, v: Option<int>, works: bool, now: int, ttl: int): map<int, Entry> {
    if v.Some? && works then cache[key := Entry(v.value, now + ttl)] else cache
  }

  /** One cache of the middleware; `redis` is whether a client is configured. */
  class ReadThrough {
    var cache: map<int, Entry>
    const ttl: int
    const redis: bool

    constructor (what: Cached, redis: bool)
      ensures cache == map[] && ttl == Ttl(what) && this.redis == redis
      ensures ttl == if what == Plan then 300_000 else 60_000
    {
      cache := map[];
      this.ttl, this.redis := Ttl(what), redis;
    }

    /** `fetchPlan` and `fetchProductCount`, undisturbed. `db` is what the database answers if it is asked:
        a count is always there, a plan may be missing. */
    method Fetch(tenant: int, fate: GetFate, db: Result<Option<int>, Error>, works: bool, now: int, later: int)
      returns (r: Result<Option<int>, Error>)
      modifies this
      ensures var hit := if redis then Looked(old(cache), tenant, fate, now) else None;
              if hit.Some? then r == Ok(hit) && cache == old(cache)
              else r == db && cache == if redis && db.Ok? then Filled(old(cache), tenant, db.value, works, later, ttl) else old(cache)
      ensures var hit := redis && fate == Answers && tenant in old(cache) && now < old(cache)[tenant].expiresAt;
              && r == (if hit then Ok(Some(old(cache)[tenant].value)) else db)
              && cache == if !hit && redis && works && db.Ok? && db.value.Some? then old(cache)[tenant := Entry(db.value.value, later + ttl)] else old(cache)
    {
      if redis {
        if fate == Answers && tenant in cache && now < cache[tenant].expiresAt {
          return Ok(Some(cache[tenant].value));
        }
      }
      if db.Err? {
        return db;
      }
      if db.value.None? {
        return Ok(None);
      }
      if redis && works {
        cache := cache[tenant := Entry(db.value.value, later + ttl)];
      }
      return db;
    }

    method Invalidate(tenant: int, works: bool)
      modifies this
      ensures cache == if redis && works then old(cache) - {tenant} else old(cache)
    {
      if !redis {
        return;
      }
      if works {
        cache := cache - {tenant};
      }
    }
  }

  // ---------------------------------------------------------------------------------------------
  // Interleavings on one tenant
  // ---------------------------------------------------------------------------------------------

  const TENANT := 0

  /** A read that missed: since `start`; once it has read the database, what it read and when. */
  datatype Flight = Missed(start: int) | HasRead(start: int, value: Option<int>, readAt: int)

  /** `readAt` is when the cached value was read from the database: history, not stored anywhere. */
  datatype System = System(db: Option<int>, cache: map<int, Entry>, readAt: int, flights: map<int, Flight>)

  datatype Event =
    | Change(value: Option<int>, at: int)
    | Get(id: int, fate: GetFate, at: int)
    | ReadDb(id: int, ok: bool, at: int)
    | Finish(id: int, works: bool, at: int)
    | Invalidate(works: bool, at: int)

  function Step(ttl: int, s: System, e: Event): System {
    match e
    case Change(value, at) => s.(db := value)
    case Get(id, fate, at) =>
      if Looked(s.cache, TENANT, fate, at).Some? then s else s.(flights := s.flights[id := Missed(at)])
    case ReadDb(id, ok, at) =>
      if id !in s.flights || s.flights[id].HasRead? then s
      else if !ok then s.(flights := s.flights - {id})
      else s.(flights := s.flights[id := HasRead(s.flights[id].start, s.db, at)])
    case Finish(id, works, at) =>
      if id !in s.flights || s.flights[id].Missed? then s
      else
        var f := s.flights[id];
        s.(cache := Filled(s.cache, TENANT, f.value, works, at, ttl),
           readAt := if f.value.Some? && works then f.readAt else s.readAt,
           flights := s.flights - {id})
    case Invalidate(works, at) => if works then s.(cache := s.cache - {TENANT}) else s
  }

  /** What the step returns to a caller: a hit, or what a read that missed brought from the database. */
  function Answer(s: System, e: Event): Option<Option<int>> {
    match e
    case Get(id, fate, at) =>
      var hit := Looked(s.cache, TENANT, fate, at);
      if hit.Some? then Some(hit) else None
    case Finish(id, works, at) =>
      if id in s.flights && s.flights[id].HasRead? then Some(s.flights[id].value) else None
    case _ => None
  }

  /** A read with nothing in between is a hit, or three steps that answer what the database holds and leave it in the cache. */
  lemma FetchIsItsSteps(ttl: int, s: System, id: int, fate: GetFate, ok: bool, works: bool, now: int, mid: int, later: int)
    requires id !in s.flights
    ensures var hit := fate == Answers && TENANT in s.cache && now < s.cache[TENANT].expiresAt;
            var missed := Step(ttl, s, Get(id, fate, now));
            var read := Step(ttl, missed, ReadDb(id, ok, mid));
            var done := Step(ttl, read, Finish(id, works, later));
            && Answer(s, Get(id, fate, now)) == (if hit then Some(Some(s.cache[TENANT].value)) else None)
            && (hit ==> missed == s)
            && (!hit ==>
                  && Answer(read, Finish(id, works, later)) == (if ok then Some(s.db) else None)
                  && done.db == s.db && done.flights == s.flights
                  && done.cache == if ok && works && s.db.Some? then s.cache[TENANT := Entry(s.db.value, later + ttl)] else s.cache)
  {
  }

  function After(ttl: int, s0: System, evs: seq<Event>): System {
    if evs == [] then s0 else Step(ttl, After(ttl, s0, evs[..|evs| - 1]), evs[|evs| - 1])
  }

  function Start(db: Option<int>): System {
    System(db, map[], 0, map[])
  }

  ghost predicate ClockMonotone(evs: seq<Event>) {
    && (forall i :: 0 <= i < |evs| ==> evs[i].at >= 0)
    && (forall i, j :: 0 <= i <= j < |evs| ==> evs[i].at <= evs[j].at)
  }

  /** The database held `v` at instant `t`: it did between some two consecutive steps that `t` lies between. */
  ghost predicate Held(ttl: int, db0: Option<int>, evs: seq<Event>, v: Option<int>, t: int) {
    exists k :: 0 <= k <= |evs| && HeldFrom(ttl, db0, evs, v, t, k)
  }

  ghost predicate HeldFrom(ttl: int, db0: Option<int>, evs: seq<Event>, v: Option<int>, t: int, k: nat)
    requires k <= |evs|
  {
    && After(ttl, Start(db0), evs[..k]).db == v
    && (k > 0 ==> evs[k - 1].at <= t) && (k < |evs| ==> t <= evs[k].at)
  }

  /** Every read-through that finishes takes at most `d`. */
  ghost predicate ReadsWithin(ttl: int, db0: Option<int>, evs: seq<Event>, d: int) {
    forall k {:trigger evs[k]} :: 0 <= k < |evs| && evs[k].Finish? ==>
      var s := After(ttl, Start(db0), evs[..k]);
      evs[k].id in s.flights ==> evs[k].at <= s.flights[evs[k].id].start + d
  }

  function Clock(evs: seq<Event>): int {
    if evs == [] then 0 else evs[|evs| - 1].at
  }

  lemma HeldSnoc(ttl: int, db0: Option<int>, evs: seq<Event>, e: Event, v: Option<int>, t: int)
    requires Held(ttl, db0, evs, v, t) && t <= e.at
    ensures Held(ttl, db0, evs + [e], v, t)
  {
    var k :| 0 <= k <= |evs| && HeldFrom(ttl, db0, evs, v, t, k);
    assert (evs + [e])[..k] == evs[..k];
    assert HeldFrom(ttl, db0, evs + [e], v, t, k);
  }

  /** What is in the database after the last step is held at any later instant. */
  lemma HeldNow(ttl: int, db0: Option<int>, evs: seq<Event>, t: int)
    requires Clock(evs) <= t
    ensures Held(ttl, db0, evs, After(ttl, Start(db0), evs).db, t)
  {
    assert evs[..|evs|] == evs;
    assert HeldFrom(ttl, db0, evs, After(ttl, Start(db0), evs).db, t, |evs|);
  }

  ghost predicate FlightSound(ttl: int, db0: Option<int>, evs: seq<Event>, f: Flight) {
    && f.start <= Clock(evs)
    && (f.HasRead? ==> f.start <= f.readAt <= Clock(evs) && Held(ttl, db0, evs, f.value, f.readAt))
  }

  ghost predicate EntrySound(ttl: int, db0: Option<int>, evs: seq<Event>, d: int, s: System) {
    TENANT in s.cache ==>
      && Held(ttl, db0, evs, Some(s.cache[TENANT].value), s.readAt) && s.readAt <= Clock(evs)
      && s.cache[TENANT].expiresAt <= s.readAt + d + ttl
  }

  ghost predicate Sound(ttl: int, db0: Option<int>, evs: seq<Event>, d: int) {
    var s := After(ttl, Start(db0), evs);
    && EntrySound(ttl, db0, evs, d, s)
    && forall id :: id in s.flights ==> FlightSound(ttl, db0, evs, s.flights[id])
  }

  lemma FlightsStep(ttl: int, db0: Option<int>, evs: seq<Event>, e: Event, d: int, id: int)
    requires Sound(ttl, db0, evs, d) && Clock(evs) <= e.at
    requires id in Step(ttl, After(ttl, Start(db0), evs), e).flights
    ensures FlightSound(ttl, db0, evs + [e], Step(ttl, After(ttl, Start(db0), evs), e).flights[id])
  {
    var s := After(ttl, Start(db0), evs);
    if id in s.flights {
      var f := s.flights[id];
      assert FlightSound(ttl, db0, evs, f);
      if f.HasRead? {
        HeldSnoc(ttl, db0, evs, e, f.value, f.readAt);
      }
    }
    HeldNow(ttl, db0, evs, e.at);
    HeldSnoc(ttl, db0, evs, e, s.db, e.at);
  }

  lemma EntryStep(ttl: int, db0: Option<int>, evs: seq<Event>, e: Event, d: int)
    requires Sound(ttl, db0, evs, d) && Clock(evs) <= e.at
    requires e.Finish? && e.id in After(ttl, Start(db0), evs).flights ==> e.at <= After(ttl, Start(db0), evs).flights[e.id].start + d
    ensures EntrySound(ttl, db0, evs + [e], d, Step(ttl, After(ttl, Start(db0), evs), e))
  {
    var s := After(ttl, Start(db0), evs);
    if TENANT in s.cache {
      HeldSnoc(ttl, db0, evs, e, Some(s.cache[TENANT].value), s.readAt);
    }
    if e.Finish? && e.id in s.flights && s.flights[e.id].HasRead? {
      var f := s.flights[e.id];
      assert FlightSound(ttl, db0, evs, f);
      HeldSnoc(ttl, db0, evs, e, f.value, f.readAt);
    }
  }

  lemma PrefixFacts(ttl: int, db0: Option<int>, evs: seq<Event>, d: int)
    requires evs != [] && ClockMonotone(evs) && ReadsWithin(ttl, db0, evs, d)
    ensures ClockMonotone(evs[..|evs| - 1]) && ReadsWithin(ttl, db0, evs[..|evs| - 1], d)
    ensures Clock(evs[..|evs| - 1]) <= evs[|evs| - 1].at
  {
    var before := evs[..|evs| - 1];
    forall k | 0 <= k < |before| ensures before[..k] == evs[..k] && before[k] == evs[k] {
    }
  }

  lemma {:induction false} RunsSound(ttl: int, db0: Option<int>, evs: seq<Event>, d: int)
    requires ClockMonotone(evs) && ReadsWithin(ttl, db0, evs, d)
    ensures Sound(ttl, db0, evs, d)
    decreases |evs|
  {
    if evs != [] {
      var before, e := evs[..|evs| - 1], evs[|evs| - 1];
      assert evs == before + [e];
      PrefixFacts(ttl, db0, evs, d);
      RunsSound(ttl, db0, before, d);
      assert evs[|before|] == e;
      EntryStep(ttl, db0, before, e, d);
      forall id | id in After(ttl, Start(db0), evs).flights
        ensures FlightSound(ttl, db0, evs, After(ttl, Start(db0), evs).flights[id])
      {
        FlightsStep(ttl, db0, before, e, d, id);
      }
    }
  }

  /**
   Whatever is returned was held by the database at some instant no longer ago than the TTL plus the
   time of one read-through, for every run of changes, hits, misses, Redis errors and invalidations.
   */
  lemma BoundedStaleness(what: Cached, db0: Option<int>, evs: seq<Event>, e: Event, d: nat)
    requires ClockMonotone(evs + [e]) && ReadsWithin(Ttl(what), db0, evs + [e], d)
    requires Answer(After(Ttl(what), Start(db0), evs), e).Some?
    ensures exists t :: e.at - Ttl(what) - d <= t <= e.at && Held(Ttl(what), db0, evs, Answer(After(Ttl(what), Start(db0), evs), e).value, t)
  {
    var ttl := Ttl(what);
    var all := evs + [e];
    PrefixFacts(ttl, db0, all, d);
    assert all[..|all| - 1] == evs;
    assert all[|evs|] == e && all[..|evs|] == evs;
    RunsSound(ttl, db0, evs, d);
    var s := After(ttl, Start(db0), evs);
    match e {
      case Get(id, fate, at) =>
        assert Held(ttl, db0, evs, Some(s.cache[TENANT].value), s.readAt);
      case Finish(id, works, at) =>
        var f := s.flights[id];
        assert FlightSound(ttl, db0, evs, f);
        assert Held(ttl, db0, evs, f.value, f.readAt);
    }
  }

  // ---------------------------------------------------------------------------------------------
  // Invalidation
  // ---------------------------------------------------------------------------------------------

  /** No read that has already been to the database carries anything but the current value. */
  ghost predicate FlightsCurrent(s: System) {
    forall id :: id in s.flights && s.flights[id].HasRead? ==> s.flights[id].value == s.db
  }

  ghost predicate Current(s: System) {
    FlightsCurrent(s) && (TENANT in s.cache ==> Some(s.cache[TENANT].value) == s.db)
  }

  ghost predicate NoChange(evs: seq<Event>) {
    forall i :: 0 <= i < |evs| ==> !evs[i].Change?
  }

  /** Every answer along the run is what the database holds. */
  ghost predicate AnswersCurrent(ttl: int, s: System, evs: seq<Event>) {
    forall k :: 0 <= k < |evs| ==> AnswerCurrent(After(ttl, s, evs[..k]), evs[k])
  }

  ghost predicate AnswerCurrent(s: System, e: Event) {
    Answer(s, e).Some? ==> Answer(s, e).value == s.db
  }

  lemma {:induction false} StaysCurrent(ttl: int, s: System, evs: seq<Event>)
    requires Current(s) && NoChange(evs)
    ensures Current(After(ttl, s, evs))
  {
    if evs != [] {
      StaysCurrent(ttl, s, evs[..|evs| - 1]);
    }
  }

  /**
   After an invalidation that works, every answer until the next change is current if and only if no
   read-through in flight has already read an older value; so in particular when none is in flight.
   */
  lemma FreshAfterInvalidation(ttl: int, s: System, at: int)
    ensures var s' := Step(ttl, s, Invalidate(true, at));
            (forall evs :: NoChange(evs) ==> AnswersCurrent(ttl, s', evs)) <==> FlightsCurrent(s)
    ensures s.flights == map[] ==> FlightsCurrent(s)
  {
    var s' := Step(ttl, s, Invalidate(true, at));
    if FlightsCurrent(s) {
      assert Current(s');
      forall evs | NoChange(evs) ensures AnswersCurrent(ttl, s', evs) {
        forall k | 0 <= k < |evs| ensures AnswerCurrent(After(ttl, s', evs[..k]), evs[k]) {
          StaysCurrent(ttl, s', evs[..k]);
        }
      }
    } else {
      var id :| id in s.flights && s.flights[id].HasRead? && s.flights[id].value != s.db;
      StaleFlightShows(ttl, s', id, at);
    }
  }

  /** A read that went to the database before the change answers with the old value. */
  lemma StaleFlightShows(ttl: int, s: System, id: int, at: int)
    requires id in s.flights && s.flights[id].HasRead? && s.flights[id].value != s.db
    ensures NoChange([Finish(id, true, at)]) && !AnswersCurrent(ttl, s, [Finish(id, true, at)])
  {
    var evs := [Finish(id, true, at)];
    assert evs[..0] == [];
    assert !AnswerCurrent(After(ttl, s, evs[..0]), evs[0]);
  }

  /** And leaves it in the cache, for as long as the TTL, in spite of the invalidation. */
  lemma StaleFlightLingers(ttl: int, s: System, id: int, works: bool, at: int, later: int)
    requires id in s.flights && s.flights[id].HasRead? && s.flights[id].value.Some? && s.flights[id].value != s.db
    requires at <= later < at + ttl
    ensures var s1 := Step(ttl, Step(ttl, s, Invalidate(works, at)), Finish(id, true, at));
            Answer(s1, Get(id, Answers, later)) == Some(s.flights[id].value) && s1.db == s.db
  {
  }
}
