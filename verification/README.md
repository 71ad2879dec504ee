# BlendPOS: a verified model of its stateful core

BlendPOS is a multi-tenant point-of-sale system: a Go backend, a Python sidecar that talks to AFIP, and a
web client. This project models, in Dafny, the parts of it that carry state machines, counters shared by
concurrent callers, ledgers and decimal arithmetic, and proves what those parts promise. `dafny verify
dfyconfig.toml` checks all of it.

Where the program changes fields or rows in place, the model is a class whose methods do the same. Their
postconditions say outright what becomes of each field or row and when a call is refused, and tie it to a
function of the old state as well. Runs are sequences of atomic steps made of those same functions, lemmas
say that an operation with nothing in between is its steps, and the theorems quantify over every run: every
interleaving of callers, replicas or customers is one.

| file | what it models | main results |
|---|---|---|
| `CircuitBreaker.dfy` | the circuit breaker before the sidecar; `Execute` is two critical sections with the call unlocked between them | the counters summarise the log of recorded outcomes in every reachable state, stragglers included; transitions follow from that log alone; cool-down; a tight bound on calls in an outage |
| `RateLimiter.dfy` | the fixed-window limiters of N replicas, one Redis and N local fallbacks | per-bucket and per-interval bounds whichever increments fail, also when two limiters share a counter; exactly how far apart requests and clocks may be for them to hold |
| `Caja.dfy` | cash sessions, their ledger, the blind count | exact thresholds of the doubly rounded deviation; exactly when a count closes |
| `CajaCorridas.dfy` | every interleaving of openings, movements, sales, annulments and counts | life cycle; what a passed guard is worth; exactly when a closed row and a later report stay as they were |
| `Auth.dfy` | refresh-token rotation and revocation | each refresh token is exchanged at most once, one live refresh token per login |
| `Clientes.dfy` | customers' credit accounts, with reads and writes as separate steps | a run keeps its books in order if and only if every write it commits was decided on the balance still stored; never overlapping suffices |
| `Decimals.dfy`, `Text.dfy`, `MoneyPrinting.dfy` | the money printer of the invoice | printer and reader are inverse |
| `PesoPrinting.dfy` | the money printer of the tickets | exactly when the two printers agree, for every decimal |
| `AmountWords.dfy` | amounts in words | a strict reader, which knows exactly one phrase for each number, recovers the amount |
| `Cuit.dfy` | the CUIT check digit | accepts exactly an error-detecting code |
| `Compras.dfy` | purchase-order arithmetic | nothing is lost before storing; a bound on what storing loses |
| `PlanCache.dfy` | the read-through cache of plans and product counts | bounded staleness against the history of the database; exactly when an invalidation is effective |
| `Arithmetic.dfy`, `Wrappers.dfy` | integer facts and rounding rules; optional values and results | |

## Representation and assumptions

- Amounts are integers in the smallest unit involved (cents, hundredths of a percent, 10^-16); the decimal
  library's rules (division to 16 places and `Round` half away from zero, `RoundBank` half to even,
  `IntPart` toward zero) are written out in `Arithmetic.dfy` and `Decimals.dfy`. The library itself is not
  part of this model, nor are Redis, the database and the JWT library: their commands appear as atomic
  steps that may fail, and where the program cannot tell, as steps that may fail after having been applied.
- Circuit breaker: a mutex-protected section is one step and reads the clock once. Only the cool-down and
  the outage bound need a clock that does not go back.
- Rate limiters: each request carries its own clock reads, in any order across requests and replicas. The
  bounds ask only that no request on a counter comes so late that it finds the counter expired (`Together`); that
  is exact (`SpreadExact`), and holds whatever the offset of Redis's clock for requests that are not delayed
  (`TimelyRunsTogether`). All limiters sharing a prefix have the same window; Redis does not lose counters.
- Cash sessions: every repository call is a step of its own, and an insert or a save may come arbitrarily
  long after the reads it was decided on; a count reads its session, adds up the ledger and saves the row in
  three steps, and a report reads the row and then the ledger. A transaction of several movements is several
  such steps.
- Tokens are unforgeable records with fresh identifiers; one exchange (EXISTS, SET, new pair) is atomic;
  backend and Redis share a clock. A token is valid strictly before its `exp`.
- Cash movements carry at most two decimals and a payment method, one of the five the schema admits.
- `big.Int.Int64` of a number beyond 64 bits is undefined by its documentation; the low 64 bits stand for it.

## Where the code and its own words, or the intended property, part ways

- The breaker's comments speak of one probe in half-open; the code admits every caller
  (`HalfOpenAdmitsEveryone`). No theorem here assumes a single probe.
- `RateLimitPerTenant` says that requests pass when Redis fails; the code counts them locally against half
  the limit, which is what is modelled. A failed plan lookup does fall back to the default limit.
- The deviation percentage is rounded twice. That differs from rounding once in two thin strips
  (`RedondeoDobleExacto`), which are empty below 10^12 cents and not empty above, within what the columns hold.
- `desvio_pct` is a DECIMAL(5,2) column: a deviation that rounds to 1000 % or more can never be closed,
  with or without the supervisor's notes. The five columns of the declared breakdown are DECIMAL(12,2), as
  the migrations make them before the wider schema patch finds them existing, though the totals are
  DECIMAL(15,2): a session may hold an amount that cannot be declared (`CuandoCierra`, `DesgloseNoCabe`). And
  with nothing expected every declaration is "normal" (`SinEsperadoTodoEsNormal`).
- The ledger of a closed session is not closed. Annulling a sale (backend/internal/service/venta_service.go:505-519)
  enters a movement without looking at the session's state, and so does a sale or a manual movement whose guard
  ran before the close (`GuardaHastaElCierre`). Reports add up the ledger again each time, so a later one shows
  another expected total beside the stored deviation (`CicloDeVida`, `ReporteTrasElCierre`, `AnulacionTrasElCierre`).
- Two counts that both read a session open both close it, and the second overwrites the first, also if it has
  not added up the ledger yet when the first is saved (`CerradaNoCambia`, `DosCierresDeUna`).
- An opening may be stored and still be answered with an error, when the reload or the report after it fails;
  the next opening at that point then reports it (`Abrir`).
- Without Redis a refresh token can be exchanged again and again (`WithoutRedisReusable`); when Redis does not
  answer, a logged-out access token is accepted until it expires (`LoggedOutStaysOut`). A logout revokes the
  access token only: the refresh token beside it still buys a new pair (`LogoutLeavesRefresh`).
- A customer's balance is read before the transaction that overwrites it: of two overlapping movements the
  books lose the one written first (`SolapePierdeElPrimero`), and an edit saves the balance it read
  (`EdicionCuadraSiVigente`).
- `formatMoney` counts the minus sign as a digit when it groups, and drops it in front of a zero
  (`NegativeMoneyMisgrouped`, `PrintersAgree`).
- `amountToWords` panics on every negative amount that fits 64 bits (`AmountToWords`).
- The limiters' bounds do not hold of a request that names a bucket and is then delayed: they do exactly as long
  as the requests on a counter are no further apart than a window by a replica's clock and less than two by
  Redis's (`SpreadExact`, `LateReadExceedsBound`, `LateIncrExceedsBound`).
- An order's state compares payments with the unrounded total: paying exactly the stored total may leave it
  pending (`PagoDelTotalGuardado`).
- A read-through that went to the database before a change undoes the invalidation that follows the change
  (`StaleFlightShows`, `StaleFlightLingers`).

## Model

| member | source | states |
|---|---|---|
| `CircuitBreakers.CircuitBreaker.constructor` | backend/internal/infra/circuit_breaker.go:73-89 | a new breaker is closed with zeroed counters, and non-positive settings become 5, 2 and 60 s |
| `CircuitBreakers.CircuitBreaker.State` | backend/internal/infra/circuit_breaker.go:92-101 | all four fields after the first critical section, and the state it reports |
| `CircuitBreakers.CircuitBreaker.OnFailure` | backend/internal/infra/circuit_breaker.go:126-141 | all four fields after recording a failure in each state, Open included |
| `CircuitBreakers.CircuitBreaker.OnSuccess` | backend/internal/infra/circuit_breaker.go:144-156 | all four fields after recording a success in each state, Open included |
| `CircuitBreakers.CircuitBreaker.Execute` | backend/internal/infra/circuit_breaker.go:105-123 | an undisturbed call is rejected exactly when the breaker is open and a cool-down has not passed since the last failure, and then changes nothing; otherwise its outcome is returned and recorded, a success clearing or counting as the state says |
| `CircuitBreakers.ExecuteIsItsSteps` | backend/internal/infra/circuit_breaker.go:105-123 | after any run such a call is the two steps of its critical sections, or the first alone if it is not admitted |
| `CircuitBreakers.CountersSummariseLog` | backend/internal/infra/circuit_breaker.go:92-156 | in every reachable state: closed means `failureCount` is the trailing run of failures since (re)closing and under its threshold; half-open means `successCount` counts the outcomes since entering it, all successes, under its threshold; `lastFailureTime` is the last recorded failure |
| `CircuitBreakers.CountersStep` | backend/internal/infra/circuit_breaker.go:92-156 | any one step, of any caller, keeps the counters' meaning and starts it afresh when the phase changes |
| `CircuitBreakers.LastFailureSummarised` | backend/internal/infra/circuit_breaker.go:126-128 | `lastFailureTime` is the instant of the last failure recorded in any phase |
| `CircuitBreakers.TransitionsFollowLog` | backend/internal/infra/circuit_breaker.go:92-156 | the breaker trips if and only if the threshold-th consecutive failure is recorded, closes if and only if the threshold-th consecutive success is, reopens on any half-open failure, and half-opens if and only if somebody looks a cool-down after the last failure |
| `CircuitBreakers.CoolDownRespected` | backend/internal/infra/circuit_breaker.go:92-101 | no call is admitted sooner than `openTimeout` after any failure that left the breaker open, stragglers' failures included |
| `CircuitBreakers.CoolDownInvariant` | backend/internal/infra/circuit_breaker.go:126-141 | after such a failure the breaker stays open, with that failure or a later one on record, until a step comes a cool-down later |
| `CircuitBreakers.HalfOpenAdmitsEveryone` | backend/internal/infra/circuit_breaker.go:105-112 | in half-open any number of calls is admitted before one outcome is recorded |
| `CircuitBreakers.OutageIsARun` | backend/internal/infra/circuit_breaker.go:105-141 | an outage is a run of the breaker in which every recorded outcome is a failure, one for each real call |
| `CircuitBreakers.OutageBound` | backend/internal/infra/circuit_breaker.go:105-141 | in an outage with one caller at a time, at most `failureThreshold + T / openTimeout` real calls within T of the first, for every schedule |
| `CircuitBreakers.OutageBoundTight` | backend/internal/infra/circuit_breaker.go:105-141 | for every multiple of the cool-down some schedule makes exactly that many |
| `RateLimiters.MemStore.MemIncr` | backend/internal/middleware/rate_limiter.go:29-41 | the local table after one increment, and the count handed out |
| `RateLimiters.RedisRateLimiter` | backend/internal/middleware/rate_limiter.go:52-120 | both tables after one request for each fate of its INCR and all its clock reads; it passes exactly when the count in its table is within the limit, or within `limit/2`, at least 1 and at most 3, when Redis fails; and the Retry-After it is told |
| `RateLimiters.RateLimitPerTenant` | backend/internal/middleware/rate_limit.go:36-151 | a request without a tenant passes uncounted; else it passes exactly when its count is at most 1000 for a paid plan and 200 for any other answer or failure of the lookup, 500 and 100 when Redis fails; with the rate-limit headers and a Retry-After of at least 1 |
| `RateLimiters.BucketSpan` | backend/internal/middleware/rate_limiter.go:84-87 | an instant lies in the span of its bucket |
| `RateLimiters.EntryOutlivesBucket` | backend/internal/middleware/rate_limiter.go:35-37 | an entry that lives one window outlives its bucket |
| `RateLimiters.OutlivesAlways` | backend/internal/middleware/rate_limiter.go:107-110 | in every run of requests that are not delayed no counter expires before the end of its bucket, and Redis's, by its own clock, not for half a window more |
| `RateLimiters.AlwaysTraced` | backend/internal/middleware/rate_limiter.go:29-41 | in every run at all each counter expires a window (in Redis two) after some request on it, or never |
| `RateLimiters.HandedOutStep` | backend/internal/middleware/rate_limiter.go:84-119 | whoever passes was handed a count nobody else was handed: the capped counts grow by at least one |
| `RateLimiters.BucketBound` | backend/internal/middleware/rate_limiter.go:84-119 | in every run of n replicas in which no request finds its counter expired at most `limit + n * local` requests on one counter pass, whichever increments fail and whoever else increments it, for every window and whatever the clocks |
| `RateLimiters.SpreadExact` | backend/internal/middleware/rate_limiter.go:29-41 | all runs whose requests on one counter are at most so far apart keep the bound, for all limits, if and only if that is at most a window by a replica's clock and less than two by Redis's |
| `RateLimiters.TimelyRunsTogether` | backend/internal/middleware/rate_limiter.go:84-119 | requests whose local read falls in the window that starts with their bucket, and whose INCR Redis executes within half a window of the read of the bucket, whatever the offset of its clock, are near enough |
| `RateLimiters.LateReadExceedsBound` | backend/internal/middleware/rate_limiter.go:86-97 | for every window, bucket, limit and local limit, any later local read lets one request more than the bound pass |
| `RateLimiters.LateIncrExceedsBound` | backend/internal/middleware/rate_limiter.go:90-110 | and so does any later INCR |
| `RateLimiters.IpLimiterBound` | backend/internal/middleware/rate_limiter.go:58-65 | per address and bucket at most `limit + 3n` pass, and 5 + 2n at the login limiter |
| `RateLimiters.IntervalBound` | backend/internal/middleware/rate_limiter.go:84-119 | over any half-open interval of k windows at most k + 1 times the per-bucket bound passes |
| `RateLimiters.TenantLimiterBound` | backend/internal/middleware/rate_limit.go:45-120 | a tenant gets at most 1000 + 500n per minute bucket, plan changes in mid-bucket notwithstanding, and k + 1 times that in any k minutes |
| `RateLimiters.RetryAfterLandsLater` | backend/internal/middleware/rate_limit.go:131-135 | waiting as told always lands in a later bucket, also when Retry-After comes from a later clock read; with one read it is positive and lands in the very next bucket |
| `Caja.AcumularPorMetodo` | backend/internal/repository/caja_repo.go:114-131 | whatever order the grouped rows come in, each method ends up with the sum of its movements, and the five always have one |
| `Caja.EsperadoEsElLibro` | backend/internal/service/caja_service.go:151-158 | the five-method sum is the opening amount plus every movement paid by one of the five, for every movement list |
| `CajaCorridas.EsperadoDelLibro` | backend/internal/service/caja_service.go:310-317 | where the schema's methods are the only ones, that is the opening amount plus every movement |
| `CajaCorridas.EsperadoDeLoPedido` | backend/internal/service/caja_service.go:97-109 | in every run the expected total is the opening amount plus the ingresos asked for, less the egresos asked for, plus sales and (negative) annulments |
| `Caja.PctDebajo` | backend/internal/service/caja_service.go:169-175 | the exact threshold on the two amounts at which the doubly rounded percentage passes any given hundredth |
| `Caja.PctConSigno` | backend/internal/service/caja_service.go:169-175 | the percentage has the sign of the deviation's quotient, and is zero with nothing expected |
| `Caja.ClasificacionExacta` | backend/internal/service/caja_service.go:290-302 | each class as an exact inequality between deviation and expectation, for all amounts |
| `Caja.RedondeoDobleExacto` | backend/internal/service/caja_service.go:169-175 | the class is the one a single exact rounding gives if and only if the ratio is outside two strips under the thresholds |
| `Caja.RedondeoDobleInocuo` | backend/internal/service/caja_service.go:169-175 | with 0 < expected < 10^12 cents: normal iff 20000 d < 201 e, critical iff 20000 d >= 1001 e |
| `Caja.RedondeoDobleVisible` | backend/internal/service/caja_service.go:169-175 | two amounts the columns hold for which double rounding changes the class |
| `Caja.CajaService.BuildReporte` | backend/internal/service/caja_service.go:304-365 | each field of the report: the expected amount of every method as the sum of the movements paid that way, the stored close, the user's name and the count of sales; or an error when the sums fail |
| `Caja.CajaService.CreateSesion` | backend/internal/repository/caja_repo.go:34-41 | a session is stored only if its point of sale has no open one (unique index), else nothing changes |
| `Caja.CajaService.Abrir` | backend/internal/service/caja_service.go:44-83 | on a point whose open session is read, reports it and changes nothing; otherwise stores a new one unless the insert is refused; for every failure of the reads around the insert |
| `CajaCorridas.InsertarAbre` | backend/internal/service/caja_service.go:58-74 | an opening enters an open session exactly when its point has none, its key is new and its amount fits the column |
| `CajaCorridas.GuardaHastaElCierre` | backend/internal/service/caja_service.go:231-240 | what a passed guard is worth: in every run a session found open is still open later if and only if no count of it was saved in between; closed sessions never reopen |
| `Caja.CajaService.RegistrarMovimiento` | backend/internal/service/caja_service.go:88-110 | appends one movement, negated for an egreso, to an open session only; every refusal changes nothing |
| `Caja.CajaService.Arqueo` | backend/internal/service/caja_service.go:116-216 | closes the given (or the caller's own) session and answers, method by method, what its movements add up to and what was declared, with the deviation; any rejection, a critical one without notes or a failing read or save included, changes nothing |
| `CajaCorridas.ArqueoEsSusPasos` | backend/internal/service/caja_service.go:116-216 | its three steps with nothing in between are the operation undisturbed |
| `CajaCorridas.CerradaNoCambia` | backend/internal/service/caja_service.go:137-201 | the row of a closed session never changes in any later run if and only if no count of it is on its way: none that has only read it open, and none about to save other figures |
| `CajaCorridas.DosCierresDeUna` | backend/internal/service/caja_service.go:137-201 | an exact close overwritten by a count that had only read the session when it was saved |
| `CajaCorridas.CorridaCoherente` | backend/internal/service/caja_service.go:44-201 | every run, whatever happens between the three steps of a count, keeps: one open session per point, methods among the five, and each stored close equal to the ledger its count added up |
| `CajaCorridas.CicloDeVida` | backend/internal/service/caja_service.go:304-365 | in every reachable state at most one open session per point of sale; a closed session's report, its ledger read at any later moment, expects what its count expected plus the entries since, so declared = expected + deviation if and only if those add up to nothing |
| `CajaCorridas.ReporteTrasElCierre` | backend/internal/service/caja_service.go:304-365 | after any later run the report of a closed session with no count on its way is the same if and only if the entries since add up to nothing for each method and the user's name and count of sales are shown as before; its expected total moves by those entries |
| `CajaCorridas.AnulacionTrasElCierre` | backend/internal/service/venta_service.go:505-519 | a sale annulled after an exact count: the report expects less than was declared and still shows no deviation |
| `Caja.CuandoCierra` | backend/internal/service/caja_service.go:177-203 | a count closes its session if and only if a critical one has notes, every amount fits its column, and the deviation stays below 1000 % |
| `Caja.MilPorCientoNoCierra` | backend/migrations/000001_create_tables.up.sql:81 | an input that cannot be closed, whatever the notes |
| `Caja.DesgloseNoCabe` | backend/migrations/000014_arqueo_detallado.up.sql:6-11 | an amount a session can be opened with that cannot be declared, on an exact count |
| `Caja.SinEsperadoTodoEsNormal` | backend/internal/service/caja_service.go:169-175 | with nothing expected the class is normal whatever is declared, while the deviation is everything declared |
| `Auth.AuthService.Login` | backend/internal/service/auth_service.go:47-74 | exactly for known credentials, an access and a refresh token of that user, told apart by kind and jti, each accepted from now until its configured lifetime is over, short of at most the last second |
| `Auth.AuthService.Refresh` | backend/internal/service/auth_service.go:76-150 | exactly when a pair is given, which error otherwise, and when the token's key is written, for every token, account and behaviour of the two Redis commands; the pair is fresh tokens of the token's user, each with its own lifetime |
| `Auth.FreshTokensUse` | backend/internal/middleware/auth.go:38-79 | of a fresh pair the access token, and only it, is accepted for its lifetime unless Redis says it is revoked, and the refresh token, and only it, buys the next fresh pair for its own |
| `Auth.StepIssuesFresh` | backend/internal/service/auth_service.go:309-333 | every login and exchange of a run issues fresh tokens of its user, the refresh token in the family of the login |
| `Auth.AuthService.Logout` | backend/internal/service/auth_service.go:248-258 | the revocation keys and the reply, also without Redis, for a spent token, and for a SET that fails with or without having been applied |
| `Auth.RevocationLasts` | backend/internal/service/auth_service.go:126-138 | a key that outlives its token is never replaced by one that does not |
| `Auth.ExchangeSpends` | backend/internal/service/auth_service.go:98-138 | what buys a pair was not revoked before and is revoked for the rest of its life after |
| `Auth.RunsSound` | backend/internal/service/auth_service.go:76-150 | in every run whatever was exchanged is revoked for good, and so are all tokens of a login but one |
| `Auth.ExchangedOnce` | backend/internal/service/auth_service.go:98-138 | in every run each refresh token is exchanged successfully at most once |
| `Auth.OneLivePerLogin` | backend/internal/service/auth_service.go:98-138 | in every run, at any instant, each login has at most one unexpired and unrevoked refresh token |
| `Auth.WithoutRedisReusable` | backend/internal/service/auth_service.go:98-138 | without Redis the same token buys a second pair |
| `Auth.LoggedOutStaysOut` | backend/internal/middleware/auth.go:38-79 | after a logout whose SET was applied the access token is refused for the rest of the run whenever Redis answers, and accepted until it expires when it does not |
| `Auth.OnlyExchangesRevoke` | backend/internal/service/auth_service.go:98-138 | in every run a refresh token has a revocation key if and only if an exchange of it wrote one: no logout does |
| `Auth.LogoutLeavesRefresh` | backend/internal/handler/auth.go:75-93 | in every run a refresh token that is live before a logout, and not exchanged since, is live after it and buys a new pair |
| `Clientes.ClienteService.Crear` | backend/internal/service/cliente_service.go:37-52 | a new customer has the data and limit asked for, is active and owes nothing; a failed insert changes nothing |
| `Clientes.ClienteService.UpdateSaldoTx` | backend/internal/repository/cliente_repo.go:113-119 | balance overwritten and entry appended together, or neither |
| `Clientes.ClienteService.CargarFiado` | backend/internal/service/cliente_service.go:150-187 | goes through exactly when the new balance is within a positive limit, adding the charge to the balance and to the ledger; every refusal changes nothing |
| `Clientes.ClienteService.RegistrarPago` | backend/internal/service/cliente_service.go:191-235 | goes through exactly when it is at most the balance, so a debt can be paid off, taking it off the balance and entering it; every refusal changes nothing |
| `Clientes.ClienteService.Actualizar` | backend/internal/service/cliente_service.go:62-92 | the whole row is saved, every field asked for changed and no other |
| `Clientes.DisponibleEsElMayorCargo` | backend/internal/service/cliente_service.go:239-245 | with a limit, the credit shown is exactly the largest charge that goes through |
| `Clientes.LeerYEscribir` | backend/internal/service/cliente_service.go:150-235 | a read and its write with nothing in between are the operation undisturbed |
| `Clientes.EscrituraCuadraSiVigente` | backend/internal/repository/cliente_repo.go:113-119 | a write keeps the books if and only if the balance it was decided on is still the stored one |
| `Clientes.EdicionCuadraSiVigente` | backend/internal/repository/cliente_repo.go:49-55 | saving a row keeps the books if and only if its balance is still the stored one |
| `Clientes.CorridaCuadra` | backend/internal/service/cliente_service.go:150-235 | every run without overlapping windows on one customer keeps the books and every pending write's basis |
| `Clientes.LibrosEnOrden` | backend/internal/service/cliente_service.go:150-235 | in every such run each balance is charges less payments and not negative, and each entry's running balance is the sum up to it |
| `Clientes.CargoRespetaLimite` | backend/internal/service/cliente_service.go:161-168 | in every such run no written charge leaves the balance above a positive limit then in force |
| `Clientes.CuadraSiYSoloSiAlDia` | backend/internal/repository/cliente_repo.go:113-119 | for every run, overlapping or not: the books are in order all along it if and only if every committed write was decided on the balance still stored |
| `Clientes.SolapePierdeElPrimero` | backend/internal/service/cliente_service.go:150-235 | of any two overlapping movements of one customer, in any state, both are on the ledger and only the second is in the balance; the books survive exactly when the first is zero |
| `Clientes.SolapePierdeUnCargo` | backend/internal/service/cliente_service.go:150-187 | a run from the start that does it, for any two charges |
| `Decimals.RoundedBankIsNearest` | backend/internal/infra/factura_html.go:653-657 | the rounding the printer uses is the unique nearest multiple, the even one of two equally near |
| `MoneyPrinting.GroupThousands` | backend/internal/infra/factura_html.go:660-667 | the loop of both printers yields the groups of three counted from the right, joined by dots |
| `MoneyPrinting.GroupedIsDotted` | backend/internal/infra/factura_html.go:660-667 | placing a dot wherever a multiple of three characters remains is cutting groups of three from the right |
| `MoneyPrinting.FormatDecimalAFIP` | backend/internal/infra/factura_html.go:651-677 | what is printed reads back as the number rounded half to even, with as many decimals as asked for |
| `MoneyPrinting.AFIPRoundTrip` | backend/internal/infra/factura_html.go:651-677 | the same for every decimal of any sign and size and every number of decimals |
| `MoneyPrinting.AFIPGroups` | backend/internal/infra/factura_html.go:651-677 | the integer part printed is one group of one to three digits and then groups of exactly three, without leading zeros |
| `PesoPrinting.FormatMoney` | backend/internal/infra/pdf.go:419-432 | behind the peso sign, an amount that is not negative and fits 64 bits reads back as itself cut off at two decimals |
| `PesoPrinting.FormatMoneyAFIP` | backend/internal/infra/pdf.go:410-416 | the same for the whole string, which is what `formatDecimalAFIP` prints exactly under the condition of `PrintersAgree` |
| `PesoPrinting.MoneyPrintsCut` | backend/internal/infra/pdf.go:410-432 | an amount that is not negative is printed cut off at two decimals, in the shape of `formatDecimalAFIP`, if and only if its whole part fits 64 bits |
| `PesoPrinting.MoneyRoundTrip` | backend/internal/infra/pdf.go:410-432 | and then reads back as the amount cut off at two decimals |
| `PesoPrinting.PrintersAgree` | backend/internal/infra/pdf.go:410-432 | for every decimal at all: the two printers print the same if and only if the whole part fits 64 bits, the sign survives, and cutting is what banker's rounding would do; so on every amount of at most two decimals from 0 to 2^63 |
| `PesoPrinting.NegativeMoneyMisgrouped` | backend/internal/infra/pdf.go:419-432 | a negative whole part is grouped with a dot behind the sign exactly when its digits are a multiple of three |
| `PesoPrinting.WholesPrintedSame` | backend/internal/infra/pdf.go:422-431 | printed whole parts are equal exactly when the numbers are, no such dot appears and no sign is lost before a zero |
| `AmountWords.AmountToWords` | backend/internal/infra/pdf.go:149-217 | within 64 bits: panics exactly on negative amounts, and otherwise the strict reader reads the words back as the amount rounded to cents, so as the amount itself with at most two decimals, in every branch |
| `AmountWords.OnePhrase` | backend/internal/infra/pdf.go:159-214 | the reader reads exactly one phrase as each whole number |
| `AmountWords.BelowHundred` | backend/internal/infra/pdf.go:164-173 | the words for 1 to 99 read back as the number |
| `AmountWords.BelowThousand` | backend/internal/infra/pdf.go:174-189 | the words for 101 to 999 read back as the number |
| `AmountWords.BelowMillion` | backend/internal/infra/pdf.go:190-211 | the words and numerals for 1000 to 999999 read back as the number |
| `AmountWords.RoundedAtCents` | backend/internal/infra/pdf.go:156-157 | integer part and rounded cents together are the amount rounded to cents, also when the cents come out as 100 |
| `Cuit.ValidarEsElCodigo` | afip-sidecar/afip_client.py:34-51 | accepted exactly the strings that, stripped of Python's white space, are eleven digits whose sum with the weights 5, 4, 3, 2, 7, 6, 5, 4, 3, 2, 1 is a multiple of 11 |
| `Cuit.StripEsElCentro` | afip-sidecar/afip_client.py:39 | stripping takes all white space off both ends and nothing else |
| `Cuit.DetectaUnDigito` | afip-sidecar/afip_client.py:34-51 | every change of one digit of a valid CUIT is rejected |
| `Cuit.DetectaPermutacion` | afip-sidecar/afip_client.py:34-51 | swapping two different digits goes unnoticed if and only if their weights are equal |
| `Cuit.DetectaVecinosPermutados` | afip-sidecar/afip_client.py:34-51 | every swap of two different neighbours is rejected |
| `Cuit.UnSoloVerificador` | afip-sidecar/afip_client.py:44-51 | each ten-digit prefix has at most one check digit, none exactly when the remainder is 1 |
| `Compras.CalculoExacto` | backend/internal/service/compra_service.go:142-149 | no division loses a digit: each figure of a line is the exact product |
| `Compras.ListasExactas` | backend/internal/service/compra_service.go:142-153 | each line's base, discount, tax and total as the exact product of its price, quantity and percentages |
| `Compras.SumasCuadran` | backend/internal/service/compra_service.go:151-153 | sum of line totals = subtotal - discounts + taxes, for every list of items |
| `Compras.Crear` | backend/internal/service/compra_service.go:94-206 | refused exactly for an identifier or date that does not parse, a quantity below 1 or a failed insert, in that order; otherwise exact totals, and paid if and only if there are payments that reach the unrounded total |
| `Compras.ColumnasCuadran` | backend/internal/service/compra_service.go:188-202 | stored total and sum of stored line totals differ by at most 0.005 (n + 1) |
| `Compras.PagadaSegunColumna` | backend/internal/service/compra_service.go:200-202 | the order's state and what its stored total would say differ for exactly one sum of payments, the stored total itself, and only if storing rounded the total down |
| `Compras.ColumnaPorDebajo` | backend/internal/service/compra_service.go:200-202 | storing rounds a total down exactly when less than half a cent lies beyond its cents (or exactly half, of a negative total) |
| `Compras.PagoDelTotalGuardado` | backend/internal/service/compra_service.go:200-202 | an order whose stored total, paid exactly, leaves it pending |
| `PlanCache.ReadThrough.Fetch` | backend/internal/middleware/plan.go:297-370 | an undisturbed read answers from the cache exactly while the entry lives, else from the database, and writes to the cache exactly what a miss found there |
| `PlanCache.FetchIsItsSteps` | backend/internal/middleware/plan.go:297-370 | in a run such a read is a hit, or three steps that answer and cache what the database holds |
| `PlanCache.ReadThrough.Invalidate` | backend/internal/middleware/plan.go:267-289 | the tenant's entry is gone if Redis works, and nothing else changes |
| `PlanCache.RunsSound` | backend/internal/middleware/plan.go:297-370 | in every run whatever is cached or in flight was held by the database when it was read, and expires within TTL plus one read of that |
| `PlanCache.BoundedStaleness` | backend/internal/middleware/plan.go:297-370 | in every run each answer was held by the database within the last TTL plus the time of one read-through |
| `PlanCache.FreshAfterInvalidation` | backend/internal/middleware/plan.go:267-289 | after an invalidation every answer until the next change is current if and only if no read in flight carries an older value |
| `PlanCache.StaleFlightShows` | backend/internal/middleware/plan.go:315-338 | a read that went to the database before the change answers with the old value |
| `PlanCache.StaleFlightLingers` | backend/internal/middleware/plan.go:315-338 | and leaves it in the cache for a whole TTL, the invalidation notwithstanding |

## Left out

- RateLimiters.BucketBound: a Redis that loses or evicts counters is excluded.
- RateLimiters.OutlivesAlways: a window under one second is excluded; the code would count in minutes and let counters expire within the second.
- RateLimiters.TenantLimiterBound: requests that find their counter expired are excluded, as in the other bounds; `SpreadExact` says which runs have none.
- Auth.ExchangedOnce: two concurrent exchanges of one refresh token are not modelled; EXISTS and SET are two commands, so both could pass.
- Auth.AuthService.Login: password hashing, signing and the claims other than jti, type, iat and exp are parameters or absent.
- Caja.CajaService.RegistrarMovimiento: amounts of more than two decimals, which the column rounds, and database failures other than constraint violations, which change nothing, are not modelled.
- Caja.CajaService.Arqueo: when a user has open sessions at several points of sale, which of them is closed is left open.
- Clientes.CorridaCuadra: overlapping windows on one customer are excluded; exactly which runs keep the books without that is `CuadraSiYSoloSiAlDia`.
- AmountWords.AmountToWords: what the words say of an amount beyond 64 bits is not characterised.
- `formatPercentFactura` and `formatCantidadFactura` wrap `formatDecimalAFIP` in one line each.
- Compras.Crear: prices and percentages of more than two decimals and overflow of the DECIMAL(12,2) columns are not modelled; how dates and identifiers parse is a parameter.
- Cuit.ValidarEsElCodigo: digits outside ASCII, which Python's `isdigit` also admits, are not modelled.
- PlanCache.ReadThrough.Fetch: the JSON encoding of plans is abstracted to values that decode or do not.
- HTTP handlers, routing, headers other than the limiters', logging and audit: plumbing without a hard property.
- Listing, history and search queries, and simple create-read-update-delete services: they would add only easy members.
- The rest of the AFIP sidecar: it rests on a library that is not part of this model.
- PDF and HTML templates, mail and file storage: input and output.
- Sales beyond the cash movements they enter, stock, transfers, the worker pool and the offline queue of the web client.
