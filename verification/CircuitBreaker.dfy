/**
 The circuit breaker in front of the AFIP sidecar (backend/internal/infra/circuit_breaker.go).

 `Execute` takes the mutex twice: once in `State`, to decide whether the call is admitted, and once
 more to record the outcome of the call.  The call itself runs unlocked, so between the two critical
 sections any number of other callers may run theirs.  Each critical section is one step here, and a
 run is any sequence of steps: every interleaving of every set of callers is such a sequence,
 including calls admitted while Closed whose outcome arrives while the breaker is Open or HalfOpen.
 */
module CircuitBreakers {
  import opened Arithmetic

  datatype Phase = Closed | Open | HalfOpen

  datatype Config = Config(failureThreshold: int, successThreshold: int, openTimeout: int)

  /** The mutable fields of the breaker, as one value. Instants and durations share one unit. */
  datatype Core = Core(phase: Phase, failureCount: int, successCount: int, lastFailure: int)

  const DEFAULT_OPEN_TIMEOUT := 60_000_000_000

  /** The defaults that `NewCircuitBreaker` fills in. */
  function Normalized(cfg: Config): Config {
    Config(if cfg.failureThreshold <= 0 then 5 else cfg.failureThreshold,
           if cfg.successThreshold <= 0 then 2 else cfg.successThreshold,
           if cfg.openTimeout <= 0 then DEFAULT_OPEN_TIMEOUT else cfg.openTimeout)
  }

  ghost predicate Positive(cfg: Config) {
    cfg.failureThreshold > 0 && cfg.successThreshold > 0 && cfg.openTimeout > 0
  }

  const FRESH := Core(Closed, 0, 0, 0)

  // ---------------------------------------------------------------------------------------------
  // The critical sections, as functions on the fields
  // ---------------------------------------------------------------------------------------------

  function Looked(cfg: Config, c: Core, now: int): Core {
    if c.phase == Open && now - c.lastFailure >= cfg.openTimeout
    then c.(phase := HalfOpen, successCount := 0)
    else c
  }

  function Failed(cfg: Config, c: Core, now: int): Core {
    var c1 := c.(failureCount := c.failureCount + 1, lastFailure := now);
    match c.phase
    case Closed => if c1.failureCount >= cfg.failureThreshold then c1.(phase := Open, successCount := 0) else c1
    case HalfOpen => c1.(phase := Open, failureCount := 0)
    case Open => c1
  }

  function Succeeded(cfg: Config, c: Core): Core {
    match c.phase
    case Closed => c.(failureCount := 0)
    case HalfOpen =>
      if c.successCount + 1 >= cfg.successThreshold
      then c.(phase := Closed, failureCount := 0, successCount := 0)
      else c.(successCount := c.successCount + 1)
    case Open => c
  }

  datatype Outcome = Rejected | CallFailed | CallSucceeded

  class CircuitBreaker {
    var state: Phase
    var failureCount: int
    var successCount: int
    var lastFailureTime: int
    const failureThreshold: int
    const successThreshold: int
    const openTimeout: int

    ghost function Fields(): Core
      reads this
    {
      Core(state, failureCount, successCount, lastFailureTime)
    }

    ghost function Tuning(): Config {
      Config(failureThreshold, successThreshold, openTimeout)
    }

    constructor (cfg: Config)
      ensures state == Closed && failureCount == successCount == lastFailureTime == 0 && Fields() == FRESH
      ensures failureThreshold == (if cfg.failureThreshold > 0 then cfg.failureThreshold else 5)
      ensures successThreshold == (if cfg.successThreshold > 0 then cfg.successThreshold else 2)
      ensures openTimeout == (if cfg.openTimeout > 0 then cfg.openTimeout else 60_000_000_000)
      ensures Positive(Tuning()) && Tuning() == Normalized(cfg)
    {
      state, failureCount, successCount, lastFailureTime := Closed, 0, 0, 0;
      failureThreshold := if cfg.failureThreshold <= 0 then 5 else cfg.failureThreshold;
      successThreshold := if cfg.successThreshold <= 0 then 2 else cfg.successThreshold;
      openTimeout := if cfg.openTimeout <= 0 then DEFAULT_OPEN_TIMEOUT else cfg.openTimeout;
    }

    /** First critical section: `now` is the clock read inside it. */
    method State(now: int) returns (s: Phase)
      modifies this
      ensures Fields() == Looked(Tuning(), old(Fields()), now)
      ensures state == s == if old(state) == Open && now >= old(lastFailureTime) + openTimeout then HalfOpen else old(state)
      ensures failureCount == old(failureCount) && lastFailureTime == old(lastFailureTime)
      ensures successCount == if state == old(state) then old(successCount) else 0
    {
      if state == Open && now - lastFailureTime >= openTimeout {
        state := HalfOpen;
        successCount := 0;
      }
      s := state;
    }

    method OnFailure(now: int)
      modifies this
      ensures Fields() == Failed(Tuning(), old(Fields()), now)
      ensures lastFailureTime == now
      ensures state == Closed <==> old(state) == Closed && old(failureCount) + 1 < failureThreshold
      ensures state != HalfOpen
      ensures failureCount == if old(state) == HalfOpen then 0 else old(failureCount) + 1
      ensures successCount == if old(state) == Closed && state == Open then 0 else old(successCount)
    {
      failureCount := failureCount + 1;
      lastFailureTime := now;
      match state
      case Closed =>
        if failureCount >= failureThreshold {
          state := Open;
          successCount := 0;
        }
      case HalfOpen =>
        state := Open;
        failureCount := 0;
      case Open =>
    }

    method OnSuccess()
      modifies this
      ensures Fields() == Succeeded(Tuning(), old(Fields()))
      ensures lastFailureTime == old(lastFailureTime)
      ensures old(state) == Closed ==> state == Closed && failureCount == 0 && successCount == old(successCount)
      ensures old(state) == Open ==> Fields() == old(Fields())
      ensures old(state) == HalfOpen && old(successCount) + 1 >= successThreshold ==> state == Closed && failureCount == successCount == 0
      ensures old(state) == HalfOpen && old(successCount) + 1 < successThreshold ==>
                state == HalfOpen && failureCount == old(failureCount) && successCount == old(successCount) + 1
    {
      match state
      case Closed =>
        failureCount := 0;
      case HalfOpen =>
        successCount := successCount + 1;
        if successCount >= successThreshold {
          state := Closed;
          failureCount := 0;
          successCount := 0;
        }
      case Open =>
    }

    /** A whole `Execute` with nobody else at work between its two critical sections. */
    method Execute(start: int, finish: int, fails: bool) returns (r: Outcome)
      modifies this
      ensures Fields() == AfterCall(Tuning(), old(Fields()), start, finish, fails)
      ensures r == Rejected <==> old(state) == Open && start < old(lastFailureTime) + openTimeout
      ensures r == Rejected ==> Fields() == old(Fields())
      ensures r != Rejected ==> (r == CallFailed <==> fails)
      ensures r == CallFailed ==> lastFailureTime == finish
      ensures r == CallSucceeded && old(state) == Closed ==> state == Closed && failureCount == 0
      ensures r == CallSucceeded && old(state) == HalfOpen ==>
                if old(successCount) + 1 >= successThreshold then state == Closed && failureCount == successCount == 0
                else state == HalfOpen && successCount == old(successCount) + 1
      ensures r == CallSucceeded && old(state) == Open ==>
                if successThreshold <= 1 then state == Closed else state == HalfOpen && successCount == 1
    {
      var s := State(start);
      if s == Open {
        return Rejected;
      }
      if fails {
        OnFailure(finish);
        return CallFailed;
      }
      OnSuccess();
      return CallSucceeded;
    }
  }

  // ---------------------------------------------------------------------------------------------
  // Runs
  // ---------------------------------------------------------------------------------------------

  /** `Look` is a bare `State()` from the health handler or the retry cron; `Enter` is the one inside
      `Execute`; `Failure` and `Success` are the second critical section of some admitted call. */
  datatype Event = Look(at: int) | Enter(at: int) | Failure(at: int) | Success(at: int)

  function Step(cfg: Config, c: Core, e: Event): Core {
    match e
    case Look(at) => Looked(cfg, c, at)
    case Enter(at) => Looked(cfg, c, at)
    case Failure(at) => Failed(cfg, c, at)
    case Success(_) => Succeeded(cfg, c)
  }

  function After(cfg: Config, evs: seq<Event>): Core {
    if evs == [] then FRESH else Step(cfg, After(cfg, evs[..|evs| - 1]), evs[|evs| - 1])
  }

  lemma AfterSnoc(cfg: Config, evs: seq<Event>, e: Event)
    ensures After(cfg, evs + [e]) == Step(cfg, After(cfg, evs), e)
  {
    assert (evs + [e])[..|evs|] == evs;
  }

  predicate Admits(cfg: Config, c: Core, now: int) {
    Looked(cfg, c, now).phase != Open
  }

  function AfterCall(cfg: Config, c: Core, start: int, finish: int, fails: bool): Core {
    var c1 := Looked(cfg, c, start);
    if c1.phase == Open then c1
    else if fails then Failed(cfg, c1, finish)
    else Succeeded(cfg, c1)
  }

  /**
   A call with nobody else at work is two steps of a run, or one if it is not admitted: the runs below are made of
   what `Execute` does.
   */
  lemma ExecuteIsItsSteps(cfg: Config, evs: seq<Event>, start: int, finish: int, fails: bool)
    ensures var c := After(cfg, evs);
            && (Admits(cfg, c, start) <==> c.phase != Open || start >= c.lastFailure + cfg.openTimeout)
            && AfterCall(cfg, c, start, finish, fails)
               == After(cfg, evs + [Enter(start)] + if Admits(cfg, c, start) then [if fails then Failure(finish) else Success(finish)] else [])
  {
    hide After, Failed, Succeeded;
    var entered := evs + [Enter(start)];
    AfterSnoc(cfg, evs, Enter(start));
    if Admits(cfg, After(cfg, evs), start) {
      AfterSnoc(cfg, entered, if fails then Failure(finish) else Success(finish));
    } else {
      assert entered + [] == entered;
    }
  }

  // ---------------------------------------------------------------------------------------------
  // What the log of recorded outcomes says, without looking at any counter
  // ---------------------------------------------------------------------------------------------

  /** The recorded outcomes in order; true is a failure. */
  function Outcomes(evs: seq<Event>): seq<bool> {
    if evs == [] then []
    else
      var rest := Outcomes(evs[..|evs| - 1]);
      match evs[|evs| - 1]
      case Failure(_) => rest + [true]
      case Success(_) => rest + [false]
      case _ => rest
  }

  /** `n` is the length of the longest all-failures suffix. */
  ghost predicate TrailingFailures(rs: seq<bool>, n: int) {
    && 0 <= n <= |rs|
    && (forall k :: |rs| - n <= k < |rs| ==> rs[k])
    && (n < |rs| ==> !rs[|rs| - n - 1])
  }

  ghost predicate AllSucceeded(rs: seq<bool>) {
    forall k :: 0 <= k < |rs| ==> !rs[k]
  }

  /** `at` is when the last failure of the log was recorded. */
  ghost predicate LastFailureAt(evs: seq<Event>, at: int) {
    exists i :: 0 <= i < |evs| && evs[i] == Failure(at) && forall j :: i < j < |evs| ==> !evs[j].Failure?
  }

  /** The phase after the first `k` steps. */
  function PhaseAt(cfg: Config, evs: seq<Event>, k: int): Phase {
    After(cfg, if 0 <= k <= |evs| then evs[..k] else evs).phase
  }

  /** Where the current phase began: the phase is the same from there on, and was another just before. */
  ghost predicate PhaseBegan(cfg: Config, evs: seq<Event>, s: nat) {
    && s <= |evs|
    && (forall k :: s <= k <= |evs| ==> PhaseAt(cfg, evs, k) == After(cfg, evs).phase)
    && (s > 0 ==> PhaseAt(cfg, evs, s - 1) != After(cfg, evs).phase)
  }

  /** What the two counters must say about the outcomes recorded since the current phase began. */
  ghost predicate CountersMatch(cfg: Config, c: Core, rs: seq<bool>) {
    && (c.phase == Closed ==> TrailingFailures(rs, c.failureCount) && c.failureCount < cfg.failureThreshold)
    && (c.phase == HalfOpen ==> AllSucceeded(rs) && |rs| == c.successCount < cfg.successThreshold)
  }

  /** And what `lastFailureTime` must say about the whole log. */
  ghost predicate LastFailureMatches(c: Core, evs: seq<Event>) {
    && (c.phase != Closed ==> LastFailureAt(evs, c.lastFailure))
    && ((exists i :: 0 <= i < |evs| && evs[i].Failure?) ==> LastFailureAt(evs, c.lastFailure))
  }

  function OutcomeOf(e: Event): seq<bool> {
    match e
    case Failure(_) => [true]
    case Success(_) => [false]
    case _ => []
  }

  lemma OutcomesSnoc(evs: seq<Event>, e: Event)
    ensures Outcomes(evs + [e]) == Outcomes(evs) + OutcomeOf(e)
  {
    assert (evs + [e])[..|evs|] == evs;
  }

  lemma LastFailureSnoc(evs: seq<Event>, e: Event, at: int)
    requires if e.Failure? then e.at == at else LastFailureAt(evs, at)
    ensures LastFailureAt(evs + [e], at)
  {
    var all := evs + [e];
    if e.Failure? {
      assert all[|evs|] == Failure(at);
    } else {
      var i :| 0 <= i < |evs| && evs[i] == Failure(at) && forall j :: i < j < |evs| ==> !evs[j].Failure?;
      assert all[i] == Failure(at);
    }
  }

  lemma PhaseAtPrefix(cfg: Config, evs: seq<Event>, e: Event, k: int)
    requires k <= |evs|
    ensures 0 <= k ==> PhaseAt(cfg, evs + [e], k) == PhaseAt(cfg, evs, k)
    ensures PhaseAt(cfg, evs, |evs|) == After(cfg, evs).phase
  {
    assert evs[..|evs|] == evs;
    assert 0 <= k ==> (evs + [e])[..k] == evs[..k];
  }

  /** Where the phase that follows one more step began. */
  lemma PhaseBeganSnoc(cfg: Config, evs: seq<Event>, e: Event, s: nat)
    requires PhaseBegan(cfg, evs + [e], s)
    ensures s <= |evs| ==> PhaseBegan(cfg, evs, s) && After(cfg, evs).phase == After(cfg, evs + [e]).phase
    ensures s > |evs| ==> s == |evs| + 1 && After(cfg, evs).phase != After(cfg, evs + [e]).phase
  {
    PhaseAtPrefix(cfg, evs, e, |evs|);
    if s <= |evs| {
      forall k | s <= k <= |evs| ensures PhaseAt(cfg, evs, k) == After(cfg, evs).phase {
        PhaseAtPrefix(cfg, evs, e, k);
      }
      PhaseAtPrefix(cfg, evs, e, s - 1);
    }
  }

  /** One step keeps the counters' meaning; entering another phase starts it afresh. */
  lemma CountersStep(cfg: Config, c: Core, e: Event, rs: seq<bool>)
    requires Positive(cfg) && CountersMatch(cfg, c, rs)
    ensures var c' := Step(cfg, c, e);
            CountersMatch(cfg, c', if c'.phase == c.phase then rs + OutcomeOf(e) else [])
  {
    var all := rs + OutcomeOf(e);
    if c.phase == Closed && e.Failure? {
      assert c.failureCount < |rs| ==> all[|all| - (c.failureCount + 1) - 1] == rs[|rs| - c.failureCount - 1];
    }
  }

  lemma {:induction false} LastFailureSummarised(cfg: Config, evs: seq<Event>)
    ensures LastFailureMatches(After(cfg, evs), evs)
    decreases |evs|
  {
    if evs != [] {
      var before, e := evs[..|evs| - 1], evs[|evs| - 1];
      assert evs == before + [e];
      LastFailureSummarised(cfg, before);
      var c := After(cfg, before);
      if e.Failure? {
        LastFailureSnoc(before, e, e.at);
      } else if exists i :: 0 <= i < |before| && before[i].Failure? {
        LastFailureSnoc(before, e, c.lastFailure);
      } else {
        forall i | 0 <= i < |evs| ensures !evs[i].Failure? {
          assert i < |before| ==> !before[i].Failure?;
        }
      }
    }
  }

  lemma PhaseStartExists(cfg: Config, evs: seq<Event>) returns (s: nat)
    ensures PhaseBegan(cfg, evs, s)
  {
    s := |evs|;
    assert evs[..|evs|] == evs;
    while s > 0 && PhaseAt(cfg, evs, s - 1) == After(cfg, evs).phase
      invariant s <= |evs|
      invariant forall k :: s <= k <= |evs| ==> PhaseAt(cfg, evs, k) == After(cfg, evs).phase
    {
      s := s - 1;
    }
  }

  lemma PhaseStartUnique(cfg: Config, evs: seq<Event>, s: nat, t: nat)
    requires PhaseBegan(cfg, evs, s) && PhaseBegan(cfg, evs, t)
    ensures s == t
  {
    assert s < t ==> PhaseAt(cfg, evs, t - 1) == After(cfg, evs).phase;
    assert t < s ==> PhaseAt(cfg, evs, s - 1) == After(cfg, evs).phase;
  }

  /** In every reachable state the counters and `lastFailureTime` summarise the recorded outcomes. */
  lemma {:induction false} CountersSummariseLog(cfg: Config, evs: seq<Event>, s: nat)
    requires Positive(cfg)
    requires PhaseBegan(cfg, evs, s)
    ensures CountersMatch(cfg, After(cfg, evs), Outcomes(evs[s..]))
    ensures LastFailureMatches(After(cfg, evs), evs)
    decreases |evs|
  {
    LastFailureSummarised(cfg, evs);
    if evs != [] {
      var before, e := evs[..|evs| - 1], evs[|evs| - 1];
      assert evs == before + [e];
      PhaseBeganSnoc(cfg, before, e, s);
      var s0 := PhaseStartExists(cfg, before);
      CountersSummariseLog(cfg, before, s0);
      CountersStep(cfg, After(cfg, before), e, Outcomes(before[s0..]));
      if s <= |before| {
        PhaseStartUnique(cfg, before, s, s0);
        assert evs[s..] == before[s..] + [e];
        OutcomesSnoc(before[s..], e);
      } else {
        assert evs[s..] == [];
      }
    }
  }

  /** The last `threshold` outcomes of `rs`, and no more, are failures. */
  lemma TripRule(cfg: Config, c: Core, e: Event, before: seq<bool>)
    requires Positive(cfg) && c.phase == Closed && CountersMatch(cfg, c, before)
    ensures var now, rs := Step(cfg, c, e).phase, before + OutcomeOf(e);
            now != HalfOpen && (now == Open <==> e.Failure? && TrailingFailures(rs, cfg.failureThreshold))
  {
    if e.Failure? {
      var rs := before + OutcomeOf(e);
      assert rs[..|rs| - 1] == before;
      TrailingIsFinalRun(before, c.failureCount);
      if TrailingFailures(rs, cfg.failureThreshold) {
        TrailingIsFinalRun(rs, cfg.failureThreshold);
      }
      if c.failureCount + 1 == cfg.failureThreshold {
        TrailingGrows(before, c.failureCount);
      }
    }
  }

  lemma TrailingGrows(rs: seq<bool>, n: int)
    requires TrailingFailures(rs, n)
    ensures TrailingFailures(rs + [true], n + 1)
  {
    var all := rs + [true];
    assert n < |rs| ==> all[|all| - (n + 1) - 1] == rs[|rs| - n - 1];
  }

  lemma RecoveryRule(cfg: Config, c: Core, e: Event, before: seq<bool>)
    requires Positive(cfg) && c.phase == HalfOpen && CountersMatch(cfg, c, before)
    ensures var now, rs := Step(cfg, c, e).phase, before + OutcomeOf(e);
            && (now == Open <==> e.Failure?)
            && (now == Closed <==> e.Success? && AllSucceeded(rs) && |rs| == cfg.successThreshold)
  {
  }

  /**
   Exactly when the breaker moves, in terms of the log alone.  `rs` are the outcomes recorded since the
   current phase began, the new step included.
   */
  lemma TransitionsFollowLog(cfg: Config, evs: seq<Event>, e: Event, s: nat, lastFailure: int)
    requires Positive(cfg)
    requires PhaseBegan(cfg, evs, s)
    requires After(cfg, evs).phase == Open ==> LastFailureAt(evs, lastFailure)
    ensures var was, now, rs := After(cfg, evs).phase, After(cfg, evs + [e]).phase, Outcomes(evs[s..] + [e]);
            match was
            case Closed =>
              && now != HalfOpen
              && (now == Open <==> e.Failure? && TrailingFailures(rs, cfg.failureThreshold))
            case HalfOpen =>
              && (now == Open <==> e.Failure?)
              && (now == Closed <==> e.Success? && AllSucceeded(rs) && |rs| == cfg.successThreshold)
            case Open =>
              && now != Closed
              && (now == HalfOpen <==> (e.Look? || e.Enter?) && e.at >= lastFailure + cfg.openTimeout)
  {
    CountersSummariseLog(cfg, evs, s);
    AfterSnoc(cfg, evs, e);
    OutcomesSnoc(evs[s..], e);
    var c := After(cfg, evs);
    match c.phase
    case Open => LastFailureUnique(evs, lastFailure, c.lastFailure);
    case Closed => TripRule(cfg, c, e, Outcomes(evs[s..]));
    case HalfOpen => RecoveryRule(cfg, c, e, Outcomes(evs[s..]));
  }

  lemma LastFailureUnique(evs: seq<Event>, a: int, b: int)
    requires LastFailureAt(evs, a) && LastFailureAt(evs, b)
    ensures a == b
  {
    var i :| 0 <= i < |evs| && evs[i] == Failure(a) && forall j :: i < j < |evs| ==> !evs[j].Failure?;
    var k :| 0 <= k < |evs| && evs[k] == Failure(b) && forall j :: k < j < |evs| ==> !evs[j].Failure?;
    assert i == k;
  }

  function FinalRun(rs: seq<bool>): nat {
    if rs == [] || !rs[|rs| - 1] then 0 else 1 + FinalRun(rs[..|rs| - 1])
  }

  lemma {:induction false} TrailingIsFinalRun(rs: seq<bool>, n: int)
    requires TrailingFailures(rs, n)
    ensures n == FinalRun(rs)
    decreases |rs|
  {
    if n > 0 {
      var front := rs[..|rs| - 1];
      assert n - 1 < |front| ==> front[|front| - (n - 1) - 1] == rs[|rs| - n - 1];
      TrailingIsFinalRun(front, n - 1);
    }
  }

  // ---------------------------------------------------------------------------------------------
  // The cool-down
  // ---------------------------------------------------------------------------------------------

  ghost predicate ClockMonotone(evs: seq<Event>) {
    forall i, j :: 0 <= i <= j < |evs| ==> evs[i].at <= evs[j].at
  }

  /** After a failure that left the breaker Open, either it is still Open with that failure or a later one
      on record, or the last step came at least a cool-down after it. */
  lemma {:induction false} CoolDownInvariant(cfg: Config, evs: seq<Event>, i: nat, k: nat)
    requires Positive(cfg) && ClockMonotone(evs)
    requires i < k <= |evs| && evs[i].Failure? && After(cfg, evs[..i + 1]).phase == Open
    ensures var c := After(cfg, evs[..k]);
            || (c.phase == Open && c.lastFailure >= evs[i].at)
            || evs[k - 1].at >= evs[i].at + cfg.openTimeout
    decreases k
  {
    hide After;
    if k == i + 1 {
      assert evs[..k] == evs[..i] + [evs[i]];
      AfterSnoc(cfg, evs[..i], evs[i]);
    } else {
      CoolDownInvariant(cfg, evs, i, k - 1);
      assert evs[..k] == evs[..k - 1] + [evs[k - 1]];
      AfterSnoc(cfg, evs[..k - 1], evs[k - 1]);
    }
  }

  /**
   No call is admitted sooner than `openTimeout` after any recorded failure that left the breaker Open:
   the one that tripped it, a failed probe, or a straggler's failure recorded while it was Open already.
   */
  lemma CoolDownRespected(cfg: Config, evs: seq<Event>, i: nat, j: nat)
    requires Positive(cfg) && ClockMonotone(evs)
    requires i < j < |evs|
    requires evs[i].Failure? && After(cfg, evs[..i + 1]).phase == Open
    requires evs[j].Enter? && Admits(cfg, After(cfg, evs[..j]), evs[j].at)
    ensures evs[j].at >= evs[i].at + cfg.openTimeout
  {
    CoolDownInvariant(cfg, evs, i, j);
  }

  /** Contrary to the comments ("one probe"), HalfOpen admits every caller: `n` further calls in a row
      are all admitted before a single outcome is recorded. */
  lemma {:induction false} HalfOpenAdmitsEveryone(cfg: Config, evs: seq<Event>, n: nat, at: int)
    requires After(cfg, evs).phase == HalfOpen
    ensures After(cfg, evs + seq(n, i => Enter(at))) == After(cfg, evs)
    ensures Admits(cfg, After(cfg, evs + seq(n, i => Enter(at))), at)
  {
    if n == 0 {
      assert evs + seq(n, i => Enter(at)) == evs;
    } else {
      HalfOpenAdmitsEveryone(cfg, evs, n - 1, at);
      var before := evs + seq(n - 1, i => Enter(at));
      assert evs + seq(n, i => Enter(at)) == before + [Enter(at)];
      AfterSnoc(cfg, before, Enter(at));
    }
  }

  // ---------------------------------------------------------------------------------------------
  // An outage seen by one caller at a time
  // ---------------------------------------------------------------------------------------------

  datatype Call = Call(start: int, finish: int)

  ghost predicate Sequential(calls: seq<Call>) {
    && (forall i :: 0 <= i < |calls| ==> calls[i].start <= calls[i].finish)
    && (forall i, j :: 0 <= i < j < |calls| ==> calls[i].finish <= calls[j].start)
  }

  /** The breaker after a sequence of calls every one of which would fail. */
  function Outage(cfg: Config, calls: seq<Call>): Core {
    if calls == [] then FRESH
    else
      var last := calls[|calls| - 1];
      AfterCall(cfg, Outage(cfg, calls[..|calls| - 1]), last.start, last.finish, true)
  }

  /** How many of those calls reached the sidecar. */
  function RealCalls(cfg: Config, calls: seq<Call>): nat {
    if calls == [] then 0
    else
      var before := calls[..|calls| - 1];
      RealCalls(cfg, before) + if Admits(cfg, Outage(cfg, before), calls[|calls| - 1].start) then 1 else 0
  }

  /** The steps those calls are in a run: the calls that are admitted record a failure. */
  function OutageSteps(cfg: Config, calls: seq<Call>): seq<Event> {
    if calls == [] then []
    else
      var before, last := calls[..|calls| - 1], calls[|calls| - 1];
      OutageSteps(cfg, before) + [Enter(last.start)] + if Admits(cfg, Outage(cfg, before), last.start) then [Failure(last.finish)] else []
  }

  function Count(rs: seq<bool>, b: bool): nat {
    if rs == [] then 0 else Count(rs[..|rs| - 1], b) + if rs[|rs| - 1] == b then 1 else 0
  }

  lemma CountSnoc(rs: seq<bool>, b: bool, x: bool)
    ensures Count(rs + [x], b) == Count(rs, b) + if x == b then 1 else 0
  {
    assert (rs + [x])[..|rs|] == rs;
  }

  /** An outage is a run of the breaker in which every recorded outcome is a failure, one for each real call. */
  lemma {:induction false} OutageIsARun(cfg: Config, calls: seq<Call>)
    ensures Outage(cfg, calls) == After(cfg, OutageSteps(cfg, calls))
    ensures var rs := Outcomes(OutageSteps(cfg, calls)); Count(rs, true) == RealCalls(cfg, calls) == |rs|
    decreases |calls|
  {
    if calls != [] {
      hide Admits, AfterCall, Step, Count;
      var before, last := calls[..|calls| - 1], calls[|calls| - 1];
      OutageIsARun(cfg, before);
      var evs := OutageSteps(cfg, before);
      ExecuteIsItsSteps(cfg, evs, last.start, last.finish, true);
      OutcomesSnoc(evs, Enter(last.start));
      OutcomesSnoc(evs + [Enter(last.start)], Failure(last.finish));
      CountSnoc(Outcomes(evs), true, true);
      assert Outcomes(evs) + [] == Outcomes(evs);
      assert evs + [Enter(last.start)] + [] == evs + [Enter(last.start)];
    } else {
      NoOutcomes();
    }
  }

  lemma NoOutcomes()
    ensures Count([], true) == 0
  {
  }

  /** After `n` real calls the last of them failed at `c.lastFailure`, and from the threshold on each
      one waited for a cool-down, `n - failureThreshold` of them since `first`. */
  ghost predicate OutageState(cfg: Config, n: nat, c: Core, first: int, latest: int) {
    if n < cfg.failureThreshold then c.phase == Closed && c.failureCount == n
    else
      var waited := (n - cfg.failureThreshold) * cfg.openTimeout;
      c.phase == Open && c.lastFailure >= first + waited && latest >= first + waited
  }

  lemma OutageStep(cfg: Config, n: nat, c: Core, first: int, latest: int, call: Call)
    requires Positive(cfg) && OutageState(cfg, n, c, first, latest)
    requires first <= latest <= call.start <= call.finish
    ensures var n' := n + if Admits(cfg, c, call.start) then 1 else 0;
            OutageState(cfg, n', AfterCall(cfg, c, call.start, call.finish, true), first, call.start)
  {
    var m := n - cfg.failureThreshold;
    assert (m + 1) * cfg.openTimeout == m * cfg.openTimeout + cfg.openTimeout;
  }

  lemma {:induction false} OutageInvariant(cfg: Config, calls: seq<Call>)
    requires Positive(cfg) && Sequential(calls) && calls != []
    ensures OutageState(cfg, RealCalls(cfg, calls), Outage(cfg, calls), calls[0].start, calls[|calls| - 1].start)
    decreases |calls|
  {
    var before, last := calls[..|calls| - 1], calls[|calls| - 1];
    if before == [] {
      assert RealCalls(cfg, before) == 0 && Outage(cfg, before) == FRESH;
      OutageStep(cfg, 0, FRESH, last.start, last.start, last);
    } else {
      OutageInvariant(cfg, before);
      assert before[0] == calls[0] && before[|before| - 1] == calls[|calls| - 2];
      OutageStep(cfg, RealCalls(cfg, before), Outage(cfg, before), calls[0].start, calls[|calls| - 2].start, last);
    }
  }

  lemma OutageStateBound(cfg: Config, n: nat, c: Core, first: int, latest: int, T: nat)
    requires Positive(cfg) && OutageState(cfg, n, c, first, latest)
    requires latest <= first + T
    ensures n <= cfg.failureThreshold + T / cfg.openTimeout
  {
    if n >= cfg.failureThreshold {
      QuotientAtLeast(T, cfg.openTimeout, n - cfg.failureThreshold);
    }
  }

  /** In an outage at most `failureThreshold + T / openTimeout` calls reach the sidecar within `T` of the first. */
  lemma OutageBound(cfg: Config, calls: seq<Call>, T: nat)
    requires Positive(cfg) && Sequential(calls) && calls != []
    requires calls[|calls| - 1].start <= calls[0].start + T
    ensures RealCalls(cfg, calls) <= cfg.failureThreshold + T / cfg.openTimeout
  {
    OutageInvariant(cfg, calls);
    OutageStateBound(cfg, RealCalls(cfg, calls), Outage(cfg, calls), calls[0].start, calls[|calls| - 1].start, T);
  }

  /** A schedule that meets the bound: the threshold's worth of instant calls, then one per cool-down. */
  function Greedy(cfg: Config, k: nat): seq<Call>
    requires Positive(cfg)
  {
    if k == 0 then seq(cfg.failureThreshold, i => Call(0, 0))
    else
      var t := (k - 1) * cfg.openTimeout + cfg.openTimeout;
      Greedy(cfg, k - 1) + [Call(t, t)]
  }

  lemma {:induction false} FirstFailures(cfg: Config, n: nat)
    requires Positive(cfg) && n <= cfg.failureThreshold
    ensures var calls := seq(n, i => Call(0, 0));
            && RealCalls(cfg, calls) == n
            && Outage(cfg, calls) == (if n < cfg.failureThreshold then Core(Closed, n, 0, 0) else Core(Open, n, 0, 0))
  {
    var calls := seq(n, i => Call(0, 0));
    if n > 0 {
      FirstFailures(cfg, n - 1);
      assert calls[..n - 1] == seq(n - 1, i => Call(0, 0));
      assert calls[n - 1] == Call(0, 0);
    }
  }

  lemma SequentialSnoc(calls: seq<Call>, call: Call)
    requires Sequential(calls) && call.start <= call.finish
    requires calls != [] ==> calls[|calls| - 1].finish <= call.start
    ensures Sequential(calls + [call])
  {
    var all, n := calls + [call], |calls|;
    forall i, j | 0 <= i < j < |all| ensures all[i].finish <= all[j].start {
      if j == n && i < n - 1 {
        assert calls[i].finish <= calls[n - 1].start <= calls[n - 1].finish;
      }
    }
  }

  lemma OutageSnoc(cfg: Config, calls: seq<Call>, call: Call)
    ensures Outage(cfg, calls + [call]) == AfterCall(cfg, Outage(cfg, calls), call.start, call.finish, true)
    ensures RealCalls(cfg, calls + [call]) == RealCalls(cfg, calls) + if Admits(cfg, Outage(cfg, calls), call.start) then 1 else 0
  {
    assert (calls + [call])[..|calls|] == calls;
  }

  /** `calls` makes `n` real calls, starts at 0, ends at `t` with a failure and leaves the breaker Open. */
  ghost predicate Exhausts(cfg: Config, calls: seq<Call>, n: int, t: int) {
    && calls != [] && Sequential(calls)
    && calls[0].start == 0 && calls[|calls| - 1].start == calls[|calls| - 1].finish == t
    && RealCalls(cfg, calls) == n
    && Outage(cfg, calls).phase == Open && Outage(cfg, calls).lastFailure == t
  }

  lemma ExhaustsSnoc(cfg: Config, calls: seq<Call>, n: int, t: int)
    requires Positive(cfg) && Exhausts(cfg, calls, n, t)
    ensures var t' := t + cfg.openTimeout;
            Exhausts(cfg, calls + [Call(t', t')], n + 1, t')
  {
    var call := Call(t + cfg.openTimeout, t + cfg.openTimeout);
    SequentialSnoc(calls, call);
    OutageSnoc(cfg, calls, call);
  }

  lemma FirstFailuresExhaust(cfg: Config)
    requires Positive(cfg)
    ensures Exhausts(cfg, Greedy(cfg, 0), cfg.failureThreshold, 0)
  {
    FirstFailures(cfg, cfg.failureThreshold);
  }

  /** The bound of `OutageBound` is attained for every `T` that is a multiple of the cool-down. */
  lemma {:induction false} OutageBoundTight(cfg: Config, k: nat)
    requires Positive(cfg)
    ensures Exhausts(cfg, Greedy(cfg, k), cfg.failureThreshold + k, k * cfg.openTimeout)
  {
    if k == 0 {
      FirstFailuresExhaust(cfg);
    } else {
      OutageBoundTight(cfg, k - 1);
      var t := (k - 1) * cfg.openTimeout;
      assert k * cfg.openTimeout == t + cfg.openTimeout;
      var before := Greedy(cfg, k - 1);
      ExhaustsSnoc(cfg, before, cfg.failureThreshold + k - 1, t);
      assert Greedy(cfg, k) == before + [Call(t + cfg.openTimeout, t + cfg.openTimeout)];
    }
  }
}
