/**
 Refresh-token rotation and revocation (backend/internal/service/auth_service.go,
 backend/internal/middleware/auth.go).

 Instants and lifetimes are in milliseconds; the `iat` and `exp` claims are whole seconds, as in the
 tokens.  A token is an unforgeable record.  One exchange of a refresh token (EXISTS, then SET, then the
 new pair) is one atomic step, the backend and Redis share one clock, and each step reads it once.
 */
module Auth {
  import opened Wrappers

  type Reply<T> = Result<T, Error>

  datatype Error =
    | CredencialesInvalidas
    | TokenInvalido
    | TipoInvalido
    | TokenRevocado
    | UsuarioInactivo
    | ErrorRedis
    | RedisNoDisponible

  datatype Kind = AccessKind | RefreshKind

  datatype Token = Token(jti: int, kind: Kind, user: int, iat: int, exp: int)

  datatype Pair = Pair(access: Token, refresh: Token)

  /** Lifetimes from the configuration (JWT_EXPIRATION_HOURS, JWT_REFRESH_HOURS) and whether Redis is configured. */
  datatype Config = Config(accessLife: nat, refreshLife: nat, redis: bool)

  /** Revocation keys with the instant they expire; None never expires. */
  type Revocations = map<int, Option<int>>

  function Minted(jti: int, kind: Kind, user: int, now: nat, life: nat): Token {
    Token(jti, kind, user, now / 1000, (now + life) / 1000)
  }

  /** The expiry check of the JWT library: strictly before `exp`. */
  predicate Unexpired(t: Token, now: int) {
    now < t.exp * 1000
  }

  predicate Revoked(m: Revocations, jti: int, now: int) {
    jti in m && (m[jti].None? || now < m[jti].value)
  }

  /** `SET key 1` with an expiration; the client sends none when it is zero. */
  function WithKey(m: Revocations, jti: int, now: int, ttl: int): Revocations {
    m[jti := if ttl <= 0 then None else Some(now + ttl)]
  }

  /** What the two Redis commands of an exchange do: EXISTS answers or not; SET works, fails, or fails after being applied. */
  datatype Fate = Fate(existsAnswers: bool, write: SetFate)
  datatype SetFate = SetWorks | SetFails | SetFailsApplied

  function Exchanged(cfg: Config, m: Revocations, t: Token, active: bool, fate: Fate, now: nat, jtiA: int, jtiR: int): (Revocations, Reply<Pair>) {
    if !Unexpired(t, now) then (m, Err(TokenInvalido))
    else if t.kind != RefreshKind then (m, Err(TipoInvalido))
    else if cfg.redis && !fate.existsAnswers then (m, Err(ErrorRedis))
    else if cfg.redis && Revoked(m, t.jti, now) then (m, Err(TokenRevocado))
    else if !active then (m, Err(UsuarioInactivo))
    else if cfg.redis && fate.write == SetFails then (m, Err(ErrorRedis))
    else
      var m' := if cfg.redis then WithKey(m, t.jti, now, cfg.refreshLife) else m;
      if cfg.redis && fate.write == SetFailsApplied then (m', Err(ErrorRedis))
      else (m', Ok(Pair(Minted(jtiA, AccessKind, t.user, now, cfg.accessLife), Minted(jtiR, RefreshKind, t.user, now, cfg.refreshLife))))
  }

  /** The decision of `JWTAuth` on a bearer token; `answer` is the reply to EXISTS, None when Redis fails. */
  function Authorized(cfg: Config, t: Token, answer: Option<bool>, now: int): Reply<Token> {
    if !Unexpired(t, now) then Err(TokenInvalido)
    else if t.kind != AccessKind then Err(TipoInvalido)
    else if cfg.redis && answer == Some(true) then Err(TokenRevocado)
    else Ok(t)
  }

  /** The token is accepted until `end`, short of at most the last second: the claims drop what is beyond whole seconds. */
  ghost predicate LivesUntil(t: Token, end: int) {
    forall at: int :: (at <= end - 1000 ==> Unexpired(t, at)) && (at >= end ==> !Unexpired(t, at))
  }

  /** A pair that names its user, can be told apart by kind, and lives as configured from `now` on. */
  ghost predicate FreshTokens(cfg: Config, p: Pair, user: int, now: nat, jtiA: int, jtiR: int) {
    && p.access.kind == AccessKind && p.access.jti == jtiA && LivesUntil(p.access, now + cfg.accessLife)
    && p.refresh.kind == RefreshKind && p.refresh.jti == jtiR && LivesUntil(p.refresh, now + cfg.refreshLife)
    && p.access.user == p.refresh.user == user
    && p.access.iat * 1000 <= now < p.access.iat * 1000 + 1000 && p.refresh.iat == p.access.iat
  }

  class AuthService {
    var revoked: Revocations
    const cfg: Config

    constructor (cfg: Config)
      ensures this.cfg == cfg && revoked == map[]
    {
      this.cfg := cfg;
      revoked := map[];
    }

    /** `known` is whether the user name exists and the password matches. */
    method Login(known: bool, user: int, now: nat, jtiA: int, jtiR: int) returns (r: Reply<Pair>)
      ensures r.Ok? <==> known
      ensures r.Err? ==> r.error == CredencialesInvalidas
      ensures r.Ok? ==> FreshTokens(cfg, r.value, user, now, jtiA, jtiR)
    {
      if !known {
        return Err(CredencialesInvalidas);
      }
      return Ok(Pair(Minted(jtiA, AccessKind, user, now, cfg.accessLife), Minted(jtiR, RefreshKind, user, now, cfg.refreshLife)));
    }

    /** `jtiA` and `jtiR` are the fresh identifiers the new tokens would carry. */
    method Refresh(t: Token, active: bool, fate: Fate, now: nat, jtiA: int, jtiR: int) returns (r: Reply<Pair>)
      modifies this
      ensures (revoked, r) == Exchanged(cfg, old(revoked), t, active, fate, now, jtiA, jtiR)
      ensures r.Ok? ==> FreshTokens(cfg, r.value, t.user, now, jtiA, jtiR)
      ensures var spent := t.jti in old(revoked) && (old(revoked)[t.jti].None? || now < old(revoked)[t.jti].value);
              var due := now < t.exp * 1000 && t.kind == RefreshKind && active && (cfg.redis ==> fate.existsAnswers && !spent);
              && (r.Ok? <==> due && (cfg.redis ==> fate.write == SetWorks))
              && revoked == (if due && cfg.redis && fate.write != SetFails
                             then old(revoked)[t.jti := if cfg.refreshLife == 0 then None else Some(now + cfg.refreshLife)]
                             else old(revoked))
              && (r.Err? ==> r.error == if now >= t.exp * 1000 then TokenInvalido
                                        else if t.kind == AccessKind then TipoInvalido
                                        else if cfg.redis && !fate.existsAnswers then ErrorRedis
                                        else if cfg.redis && spent then TokenRevocado
                                        else if !active then UsuarioInactivo
                                        else ErrorRedis)
    {
      if !Unexpired(t, now) {
        return Err(TokenInvalido);
      }
      if t.kind != RefreshKind {
        return Err(TipoInvalido);
      }
      if cfg.redis {
        if !fate.existsAnswers {
          return Err(ErrorRedis);
        }
        if Revoked(revoked, t.jti, now) {
          return Err(TokenRevocado);
        }
      }
      if !active {
        return Err(UsuarioInactivo);
      }
      if cfg.redis {
        if fate.write != SetFails {
          revoked := WithKey(revoked, t.jti, now, cfg.refreshLife);
        }
        if fate.write != SetWorks {
          return Err(ErrorRedis);
        }
      }
      return Ok(Pair(Minted(jtiA, AccessKind, t.user, now, cfg.accessLife), Minted(jtiR, RefreshKind, t.user, now, cfg.refreshLife)));
    }

    /** `write` is what becomes of the SET. */
    method Logout(jti: int, remaining: int, write: SetFate, now: nat) returns (r: Reply<()>)
      modifies this
      ensures (revoked, r) == LoggedOut(cfg, old(revoked), jti, remaining, write, now)
      ensures revoked == if cfg.redis && remaining > 0 && write != SetFails then old(revoked)[jti := Some(now + remaining)] else old(revoked)
      ensures r == if !cfg.redis then Err(RedisNoDisponible)
                   else if remaining > 0 && write != SetWorks then Err(ErrorRedis)
                   else Ok(())
    {
      if !cfg.redis {
        return Err(RedisNoDisponible);
      }
      if remaining <= 0 {
        return Ok(());
      }
      if write != SetFails {
        revoked := WithKey(revoked, jti, now, remaining);
      }
      if write != SetWorks {
        return Err(ErrorRedis);
      }
      return Ok(());
    }
  }

  function LoggedOut(cfg: Config, m: Revocations, jti: int, remaining: int, write: SetFate, now: nat): (Revocations, Reply<()>) {
    if !cfg.redis then (m, Err(RedisNoDisponible))
    else if remaining <= 0 then (m, Ok(()))
    else (if write == SetFails then m else WithKey(m, jti, now, remaining), if write == SetWorks then Ok(()) else Err(ErrorRedis))
  }

  /** What the tokens of a fresh pair are good for: `JWTAuth` accepts the access token, and only it, for its lifetime and
      unless Redis says that it is revoked; an exchange takes the refresh token, and only it, for its own. */
  lemma FreshTokensUse(cfg: Config, p: Pair, user: int, minted: nat, jtiA: int, jtiR: int,
                       m: Revocations, answer: Option<bool>, fate: Fate, now: nat, a: int, b: int)
    requires FreshTokens(cfg, p, user, minted, jtiA, jtiR)
    ensures now + 1000 <= minted + cfg.accessLife ==> (Authorized(cfg, p.access, answer, now) == Ok(p.access) <==> !(cfg.redis && answer == Some(true)))
    ensures now >= minted + cfg.accessLife ==> Authorized(cfg, p.access, answer, now) == Err(TokenInvalido)
    ensures Authorized(cfg, p.refresh, answer, now).Err? && Exchanged(cfg, m, p.access, true, fate, now, a, b).1.Err?
    ensures now + 1000 <= minted + cfg.refreshLife && jtiR !in m && fate == Fate(true, SetWorks) ==>
              var r := Exchanged(cfg, m, p.refresh, true, fate, now, a, b).1;
              r.Ok? && FreshTokens(cfg, r.value, user, now, a, b)
    ensures now >= minted + cfg.refreshLife ==> Exchanged(cfg, m, p.refresh, true, fate, now, a, b) == (m, Err(TokenInvalido))
  {
  }

  // ---------------------------------------------------------------------------------------------
  // Runs
  // ---------------------------------------------------------------------------------------------

  /** `login` names the family a login starts; the fresh identifiers come with each step that may mint. */
  datatype Event =
    | LogIn(login: int, user: int, known: bool, jtiA: int, jtiR: int, at: nat)
    | Exchange(token: Token, active: bool, fate: Fate, jtiA: int, jtiR: int, at: nat)
    | LogOut(token: Token, answer: Option<bool>, write: SetFate, at: nat)

  /**
   `issued` are the tokens in existence and `revoked` the keys in Redis.  The history is what the
   theorems talk about: `family` is the login each refresh token descends from, and `child` the refresh
   token each exchanged one bought.
   */
  datatype System = System(issued: map<int, Token>, revoked: Revocations, family: map<int, int>, child: map<int, int>)

  const EMPTY := System(map[], map[], map[], map[])

  function WithPair(s: System, login: int, p: Pair): System {
    s.(issued := s.issued[p.access.jti := p.access][p.refresh.jti := p.refresh], family := s.family[p.refresh.jti := login])
  }

  function Step(cfg: Config, s: System, e: Event): System {
    match e
    case LogIn(login, user, known, jtiA, jtiR, at) =>
      if !known then s
      else WithPair(s, login, Pair(Minted(jtiA, AccessKind, user, at, cfg.accessLife), Minted(jtiR, RefreshKind, user, at, cfg.refreshLife)))
    case Exchange(token, active, fate, jtiA, jtiR, at) =>
      var res := Exchanged(cfg, s.revoked, token, active, fate, at, jtiA, jtiR);
      var s1 := s.(revoked := res.0);
      if res.1.Err? || token.jti !in s.family then s1
      else WithPair(s1, s.family[token.jti], res.1.value).(child := s.child[token.jti := jtiR])
    case LogOut(token, answer, write, at) =>
      if Authorized(cfg, token, answer, at).Err? then s
      else s.(revoked := LoggedOut(cfg, s.revoked, token.jti, token.exp * 1000 - at, write, at).0)
  }

  ghost predicate Genuine(s: System, t: Token) {
    t.jti in s.issued && s.issued[t.jti] == t
  }

  ghost predicate FreshPair(s: System, jtiA: int, jtiR: int) {
    jtiA !in s.issued && jtiR !in s.issued && jtiA != jtiR
  }

  /** Tokens are unforgeable, identifiers fresh, and the clock does not go back. */
  ghost predicate Feasible(s: System, e: Event, now: nat) {
    && now <= e.at
    && match e
       case LogIn(login, _, _, jtiA, jtiR, _) => FreshPair(s, jtiA, jtiR) && forall j :: j in s.family ==> s.family[j] != login
       case Exchange(token, _, _, jtiA, jtiR, _) => Genuine(s, token) && FreshPair(s, jtiA, jtiR)
       case LogOut(token, _, _, _) => Genuine(s, token)
  }

  /** What a step of a run issues are fresh tokens of the user who logs in, or of the token that is exchanged. */
  lemma StepIssuesFresh(cfg: Config, s: System, e: Event)
    requires (e.LogIn? && e.known) || (Succeeds(cfg, s, e) && e.token.jti in s.family)
    requires e.jtiA != e.jtiR
    ensures var s' := Step(cfg, s, e);
            && e.jtiA in s'.issued && e.jtiR in s'.issued
            && FreshTokens(cfg, Pair(s'.issued[e.jtiA], s'.issued[e.jtiR]), if e.LogIn? then e.user else e.token.user, e.at, e.jtiA, e.jtiR)
            && e.jtiR in s'.family && s'.family[e.jtiR] == if e.LogIn? then e.login else s.family[e.token.jti]
  {
  }

  function After(cfg: Config, evs: seq<Event>): System {
    if evs == [] then EMPTY else Step(cfg, After(cfg, evs[..|evs| - 1]), evs[|evs| - 1])
  }

  function Clock(evs: seq<Event>): nat {
    if evs == [] then 0 else evs[|evs| - 1].at
  }

  ghost predicate ValidRun(cfg: Config, evs: seq<Event>) {
    evs != [] ==>
      && ValidRun(cfg, evs[..|evs| - 1])
      && Feasible(After(cfg, evs[..|evs| - 1]), evs[|evs| - 1], Clock(evs[..|evs| - 1]))
  }

  // ---------------------------------------------------------------------------------------------
  // What every run keeps
  // ---------------------------------------------------------------------------------------------

  /** The revocation key of `jti` outlives the token. */
  predicate RevokedForGood(s: System, jti: int) {
    && jti in s.issued && jti in s.revoked
    && (s.revoked[jti].None? || s.revoked[jti].value >= s.issued[jti].exp * 1000)
  }

  ghost predicate IssuedSound(cfg: Config, s: System, now: nat) {
    forall j :: j in s.issued ==>
      && s.issued[j].jti == j
      && (s.issued[j].kind == RefreshKind ==> s.issued[j].exp * 1000 <= now + cfg.refreshLife)
  }

  ghost predicate KeysSound(s: System) {
    && (forall j :: j in s.family <==> j in s.issued && s.issued[j].kind == RefreshKind)
    && (forall j :: j in s.revoked ==> j in s.issued)
  }

  ghost predicate TokensSound(cfg: Config, s: System, now: nat) {
    IssuedSound(cfg, s, now) && KeysSound(s)
  }

  /** Whatever has been exchanged is revoked for good, and so are all tokens of a family but one. */
  ghost predicate FamiliesSound(s: System) {
    && (forall j :: j in s.child ==> RevokedForGood(s, j))
    && (forall a, b :: a in s.family && b in s.family && a != b && s.family[a] == s.family[b]
          ==> RevokedForGood(s, a) || RevokedForGood(s, b))
  }

  ghost predicate Sound(cfg: Config, s: System, now: nat) {
    TokensSound(cfg, s, now) && FamiliesSound(s)
  }

  lemma ExpiryBound(now: nat, life: nat)
    ensures (now + life) / 1000 * 1000 <= now + life
  {
  }

  /** A revocation that outlives its token is never shortened: keys are only set again to outlive the token too. */
  lemma RevocationLasts(cfg: Config, s: System, e: Event, now: nat, j: int)
    requires cfg.redis && Feasible(s, e, now) && TokensSound(cfg, s, now)
    requires RevokedForGood(s, j)
    ensures RevokedForGood(Step(cfg, s, e), j)
  {
  }

  lemma IssuedStep(cfg: Config, s: System, e: Event, now: nat)
    requires Feasible(s, e, now) && IssuedSound(cfg, s, now)
    ensures IssuedSound(cfg, Step(cfg, s, e), e.at)
  {
    hide WithKey;
    ExpiryBound(e.at, cfg.refreshLife);
  }

  lemma KeysStep(cfg: Config, s: System, e: Event, now: nat)
    requires Feasible(s, e, now) && KeysSound(s)
    ensures KeysSound(Step(cfg, s, e))
  {
  }

  lemma TokensStep(cfg: Config, s: System, e: Event, now: nat)
    requires cfg.redis && Feasible(s, e, now) && TokensSound(cfg, s, now)
    ensures TokensSound(cfg, Step(cfg, s, e), e.at)
  {
    hide Step, Feasible, IssuedSound, KeysSound;
    IssuedStep(cfg, s, e, now);
    KeysStep(cfg, s, e, now);
  }

  predicate Succeeds(cfg: Config, s: System, e: Event) {
    e.Exchange? && Exchanged(cfg, s.revoked, e.token, e.active, e.fate, e.at, e.jtiA, e.jtiR).1.Ok?
  }

  /** A token that is revoked for good buys nothing; and what an exchange leaves behind is revoked for good. */
  lemma ExchangeSpends(cfg: Config, s: System, e: Event, now: nat)
    requires cfg.redis && Feasible(s, e, now) && TokensSound(cfg, s, now)
    requires Succeeds(cfg, s, e)
    ensures !RevokedForGood(s, e.token.jti)
    ensures RevokedForGood(Step(cfg, s, e), e.token.jti)
    ensures e.token.jti in s.family
  {
  }

  lemma FamiliesStep(cfg: Config, s: System, e: Event, now: nat)
    requires cfg.redis && Feasible(s, e, now) && Sound(cfg, s, now)
    ensures FamiliesSound(Step(cfg, s, e))
  {
    var s' := Step(cfg, s, e);
    if Succeeds(cfg, s, e) {
      ExchangeSpends(cfg, s, e, now);
    }
    forall j | j in s'.child ensures RevokedForGood(s', j) {
      if j in s.child {
        RevocationLasts(cfg, s, e, now, j);
      }
    }
    forall a, b | a in s'.family && b in s'.family && a != b && s'.family[a] == s'.family[b]
      ensures RevokedForGood(s', a) || RevokedForGood(s', b)
    {
      FamilyPair(cfg, s, e, now, a, b);
    }
  }

  lemma FamilyPair(cfg: Config, s: System, e: Event, now: nat, a: int, b: int)
    requires cfg.redis && Feasible(s, e, now) && Sound(cfg, s, now)
    requires var s' := Step(cfg, s, e);
             a in s'.family && b in s'.family && a != b && s'.family[a] == s'.family[b]
    ensures var s' := Step(cfg, s, e);
            RevokedForGood(s', a) || RevokedForGood(s', b)
  {
    if a in s.family && b in s.family {
      if RevokedForGood(s, a) {
        RevocationLasts(cfg, s, e, now, a);
      } else {
        RevocationLasts(cfg, s, e, now, b);
      }
    } else {
      ExchangeSpends(cfg, s, e, now);
      var older := if a in s.family then a else b;
      if older != e.token.jti {
        RevocationLasts(cfg, s, e, now, older);
      }
    }
  }

  lemma {:induction false} RunsSound(cfg: Config, evs: seq<Event>)
    requires cfg.redis && ValidRun(cfg, evs)
    ensures Sound(cfg, After(cfg, evs), Clock(evs))
  {
    if evs != [] {
      var before := evs[..|evs| - 1];
      RunsSound(cfg, before);
      TokensStep(cfg, After(cfg, before), evs[|evs| - 1], Clock(before));
      FamiliesStep(cfg, After(cfg, before), evs[|evs| - 1], Clock(before));
    }
  }

  predicate Live(s: System, jti: int, now: int) {
    && jti in s.issued && s.issued[jti].kind == RefreshKind
    && Unexpired(s.issued[jti], now) && !Revoked(s.revoked, jti, now)
  }

  lemma LiveAreSame(cfg: Config, s: System, clock: nat, now: int, a: int, b: int)
    requires Sound(cfg, s, clock)
    requires Live(s, a, now) && Live(s, b, now) && a in s.family && b in s.family && s.family[a] == s.family[b]
    ensures a == b
  {
  }

  /** At any time each login has at most one live refresh token. */
  lemma OneLivePerLogin(cfg: Config, evs: seq<Event>, now: int, a: int, b: int)
    requires cfg.redis && ValidRun(cfg, evs)
    requires var s := After(cfg, evs);
             Live(s, a, now) && Live(s, b, now) && a in s.family && b in s.family && s.family[a] == s.family[b]
    ensures a == b
  {
    RunsSound(cfg, evs);
    LiveAreSame(cfg, After(cfg, evs), Clock(evs), now, a, b);
  }

  lemma {:induction false} ValidPrefix(cfg: Config, evs: seq<Event>, k: nat)
    requires ValidRun(cfg, evs) && k <= |evs|
    ensures ValidRun(cfg, evs[..k])
    ensures k < |evs| ==> Feasible(After(cfg, evs[..k]), evs[k], Clock(evs[..k]))
  {
    if k < |evs| {
      var front := evs[..|evs| - 1];
      assert front[..k] == evs[..k];
      if k < |front| {
        ValidPrefix(cfg, front, k);
      }
    } else {
      assert evs[..k] == evs;
    }
  }

  /** Once revoked for good, a token stays so for the rest of the run. */
  lemma {:induction false} RevocationLastsRun(cfg: Config, evs: seq<Event>, i: nat, k: nat, j: int)
    requires cfg.redis && ValidRun(cfg, evs) && i <= k <= |evs|
    requires RevokedForGood(After(cfg, evs[..i]), j)
    ensures RevokedForGood(After(cfg, evs[..k]), j)
    decreases k
  {
    hide Step, Feasible, RevokedForGood;
    if i < k {
      RevocationLastsRun(cfg, evs, i, k - 1, j);
      ValidPrefix(cfg, evs, k - 1);
      RunsSound(cfg, evs[..k - 1]);
      RevocationLasts(cfg, After(cfg, evs[..k - 1]), evs[k - 1], Clock(evs[..k - 1]), j);
      assert evs[..k][..k - 1] == evs[..k - 1];
    }
  }

  /** A refresh token buys a new pair at most once in a run. */
  lemma ExchangedOnce(cfg: Config, evs: seq<Event>, i: nat, k: nat)
    requires cfg.redis && ValidRun(cfg, evs) && i < k < |evs|
    requires evs[i].Exchange? && evs[k].Exchange? && evs[i].token.jti == evs[k].token.jti
    requires Succeeds(cfg, After(cfg, evs[..i]), evs[i])
    ensures !Succeeds(cfg, After(cfg, evs[..k]), evs[k])
  {
    ValidPrefix(cfg, evs, i);
    RunsSound(cfg, evs[..i]);
    ExchangeSpends(cfg, After(cfg, evs[..i]), evs[i], Clock(evs[..i]));
    assert evs[..i + 1][..i] == evs[..i];
    RevocationLastsRun(cfg, evs, i + 1, k, evs[i].token.jti);
    ValidPrefix(cfg, evs, k);
    RunsSound(cfg, evs[..k]);
    if Succeeds(cfg, After(cfg, evs[..k]), evs[k]) {
      ExchangeSpends(cfg, After(cfg, evs[..k]), evs[k], Clock(evs[..k]));
    }
  }

  /** Without Redis nothing is single-use: the same token buys a second pair as it bought the first. */
  lemma WithoutRedisReusable(cfg: Config, m: Revocations, t: Token, fate: Fate, now: nat, later: nat, a: int, b: int, c: int, d: int)
    requires !cfg.redis && t.kind == RefreshKind && Unexpired(t, now) && Unexpired(t, later)
    ensures var first := Exchanged(cfg, m, t, true, fate, now, a, b);
            first.1.Ok? && Exchanged(cfg, first.0, t, true, fate, later, c, d).1.Ok?
  {
  }

  /**
   After a logout whose SET was applied, whatever the caller was told, the access token is refused for the rest of
   its life and of the run, as long as Redis answers the lookup.  When Redis does not answer, the token is
   accepted until it expires.
   */
  lemma LoggedOutStaysOut(cfg: Config, evs: seq<Event>, i: nat, now: int)
    requires cfg.redis && ValidRun(cfg, evs) && i < |evs|
    requires evs[i].LogOut? && evs[i].write != SetFails
    requires Authorized(cfg, evs[i].token, evs[i].answer, evs[i].at).Ok?
    ensures var t, s := evs[i].token, After(cfg, evs);
            && Authorized(cfg, t, Some(Revoked(s.revoked, t.jti, now)), now).Err?
            && (Authorized(cfg, t, None, now).Ok? <==> Unexpired(t, now))
  {
    ValidPrefix(cfg, evs, i);
    RunsSound(cfg, evs[..i]);
    assert evs[..i + 1][..i] == evs[..i];
    assert RevokedForGood(After(cfg, evs[..i + 1]), evs[i].token.jti);
    RevocationLastsRun(cfg, evs, i + 1, |evs|, evs[i].token.jti);
    assert evs[..|evs|] == evs;
    TokenKept(cfg, evs, i, |evs|, evs[i].token);
  }

  lemma TokenKeptStep(cfg: Config, s: System, e: Event, now: nat, t: Token)
    requires Feasible(s, e, now) && Genuine(s, t)
    ensures Genuine(Step(cfg, s, e), t)
  {
  }

  lemma {:induction false} TokenKept(cfg: Config, evs: seq<Event>, i: nat, k: nat, t: Token)
    requires ValidRun(cfg, evs) && i <= k <= |evs| && Genuine(After(cfg, evs[..i]), t)
    ensures Genuine(After(cfg, evs[..k]), t)
    decreases k
  {
    hide Step, Feasible, Genuine;
    if i < k {
      TokenKept(cfg, evs, i, k - 1, t);
      ValidPrefix(cfg, evs, k - 1);
      assert evs[..k][..k - 1] == evs[..k - 1];
      TokenKeptStep(cfg, After(cfg, evs[..k - 1]), evs[k - 1], Clock(evs[..k - 1]), t);
    }
  }

  // ---------------------------------------------------------------------------------------------
  // What a logout leaves behind
  // ---------------------------------------------------------------------------------------------

  /** The step writes the revocation key of refresh token `j`: an exchange of it that gets as far as an applied SET. */
  predicate Spends(cfg: Config, s: System, e: Event, j: int) {
    && e.Exchange? && e.token.jti == j && Unexpired(e.token, e.at) && e.token.kind == RefreshKind
    && e.fate.existsAnswers && !Revoked(s.revoked, j, e.at) && e.active && e.fate.write != SetFails
  }

  ghost predicate SpentIn(cfg: Config, evs: seq<Event>, j: int) {
    exists i :: 0 <= i < |evs| && Spends(cfg, After(cfg, evs[..i]), evs[i], j)
  }

  lemma SpentInSnoc(cfg: Config, evs: seq<Event>, e: Event, j: int)
    ensures SpentIn(cfg, evs + [e], j) <==> SpentIn(cfg, evs, j) || Spends(cfg, After(cfg, evs), e, j)
  {
    var all := evs + [e];
    assert all[..|evs|] == evs && all[|evs|] == e;
    assert forall i :: 0 <= i < |evs| ==> all[..i] == evs[..i] && all[i] == evs[i];
  }

  /** A step adds the key of a refresh token exactly when it spends it. */
  lemma RevokedStep(cfg: Config, s: System, e: Event, now: nat, j: int)
    requires cfg.redis && Feasible(s, e, now) && TokensSound(cfg, s, now)
    requires j in s.issued ==> s.issued[j].kind == RefreshKind
    ensures j in Step(cfg, s, e).revoked <==> j in s.revoked || Spends(cfg, s, e, j)
  {
  }

  /** In every run a refresh token has a revocation key if and only if an exchange of it wrote one: no logout does. */
  lemma {:induction false} OnlyExchangesRevoke(cfg: Config, evs: seq<Event>, j: int)
    requires cfg.redis && ValidRun(cfg, evs)
    requires var s := After(cfg, evs); j in s.issued && s.issued[j].kind == RefreshKind
    ensures j in After(cfg, evs).revoked <==> SpentIn(cfg, evs, j)
  {
    hide Step, Feasible, TokensSound, FamiliesSound, Spends;
    if evs != [] {
      var before, e := evs[..|evs| - 1], evs[|evs| - 1];
      assert evs == before + [e];
      RunsSound(cfg, before);
      SpentInSnoc(cfg, before, e, j);
      if j in After(cfg, before).issued {
        KeptKind(cfg, After(cfg, before), e, Clock(before), j);
        OnlyExchangesRevoke(cfg, before, j);
      } else {
        NotIssuedNotRevoked(cfg, before, j);
      }
      RevokedStep(cfg, After(cfg, before), e, Clock(before), j);
    }
  }

  lemma KeptKind(cfg: Config, s: System, e: Event, now: nat, j: int)
    requires Feasible(s, e, now) && j in s.issued
    ensures j in Step(cfg, s, e).issued && Step(cfg, s, e).issued[j] == s.issued[j]
  {
  }

  lemma NotIssuedNotRevoked(cfg: Config, evs: seq<Event>, j: int)
    requires cfg.redis && ValidRun(cfg, evs) && j !in After(cfg, evs).issued
    ensures j !in After(cfg, evs).revoked && !SpentIn(cfg, evs, j)
  {
    hide Step, Feasible, FamiliesSound;
    RunsSound(cfg, evs);
    assert evs[..|evs|] == evs;
    forall i | 0 <= i < |evs| ensures !Spends(cfg, After(cfg, evs[..i]), evs[i], j) {
      if Spends(cfg, After(cfg, evs[..i]), evs[i], j) {
        ValidPrefix(cfg, evs, i);
        ExchangeIsGenuine(After(cfg, evs[..i]), evs[i], Clock(evs[..i]));
        TokenKept(cfg, evs, i, |evs|, evs[i].token);
      }
    }
  }

  lemma ExchangeIsGenuine(s: System, e: Event, now: nat)
    requires Feasible(s, e, now) && e.Exchange?
    ensures Genuine(s, e.token)
  {
  }

  /**
   A logout leaves the login's refresh token as it was: in every run, a refresh token that is live before a logout is
   live after it, and buys a new pair for its active user.
   */
  lemma LogoutLeavesRefresh(cfg: Config, evs: seq<Event>, i: nat, j: int, later: nat, jtiA: int, jtiR: int)
    requires cfg.redis && ValidRun(cfg, evs) && i < |evs| && evs[i].LogOut?
    requires Live(After(cfg, evs[..i]), j, later)
    requires forall k :: i < k < |evs| ==> !(evs[k].Exchange? && evs[k].token.jti == j)
    ensures var s := After(cfg, evs);
            && Live(s, j, later)
            && Exchanged(cfg, s.revoked, s.issued[j], true, Fate(true, SetWorks), later, jtiA, jtiR).1.Ok?
  {
    LiveKept(cfg, evs, i, |evs|, j, later);
    assert evs[..|evs|] == evs;
    RunsSound(cfg, evs);
  }

  lemma LiveStep(cfg: Config, s: System, e: Event, now: nat, j: int, later: nat)
    requires cfg.redis && Feasible(s, e, now) && TokensSound(cfg, s, now) && Live(s, j, later)
    requires !(e.Exchange? && e.token.jti == j)
    ensures Live(Step(cfg, s, e), j, later)
  {
  }

  lemma {:induction false} LiveKept(cfg: Config, evs: seq<Event>, i: nat, k: nat, j: int, later: nat)
    requires cfg.redis && ValidRun(cfg, evs) && i <= k <= |evs| && Live(After(cfg, evs[..i]), j, later)
    requires forall m :: i <= m < k ==> !(evs[m].Exchange? && evs[m].token.jti == j)
    ensures Live(After(cfg, evs[..k]), j, later)
    decreases k
  {
    hide Step, Feasible, Live, TokensSound, FamiliesSound;
    if i < k {
      LiveKept(cfg, evs, i, k - 1, j, later);
      ValidPrefix(cfg, evs, k - 1);
      RunsSound(cfg, evs[..k - 1]);
      LiveStep(cfg, After(cfg, evs[..k - 1]), evs[k - 1], Clock(evs[..k - 1]), j, later);
      assert evs[..k][..k - 1] == evs[..k - 1];
    }
  }
}
