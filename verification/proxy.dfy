/** src/proxy.rs: one request from routing to its answer, on values. */
module Proxying {
  import opened Prelude
  import opened Retry
  import opened Pools
  import Ops = PoolRuns
  import Mix64

  type Name = string

  datatype ProxyError = NoRoute | NoHealthyUpstream | AllAttemptsFailed(n: nat)

  datatype Response = Ok(status: nat) | Err(error: ProxyError)

  /** What an upstream answers: a status, or a failure; either takes time. */
  datatype Reply = Answer(status: nat, latencyMs: u64) | Fault(latencyMs: u64)

  datatype Attempt = Attempt(backend: nat, backendName: Mix64.Bytes, ok: bool, latencyMs: u64, isRetry: bool)

  datatype HandleResult = HandleResult(
    service: Option<Name>,
    selected: Option<nat>,
    response: Response,
    attempts: seq<Attempt>)

  /** How the loop over attempts ended: no backend to try, an answer, or no more
      retries. */
  datatype Ending = NoBackend | Answered(status: nat) | GaveUp

  /** The loop over attempts: `tried` holds the failed backends, in order. */
  datatype Flight = Flight(
    pool: PoolState,
    budget: Budget,
    tried: seq<nat>,
    attempts: seq<Attempt>,
    selected: Option<nat>,
    retries: nat,
    failovers: nat)

  ghost function Takeoff(pool: PoolState, budget: Budget): Flight {
    Flight(pool, budget, [], [], None, 0, 0)
  }

  /** Begin, dispatch and end leave the counters of calls as they were; then the
      outcome is recorded. */
  ghost function Called(p: PoolState, now: u64, idx: nat, reply: Reply): PoolState {
    var q := Ops.Apply(Ops.Apply(p, Ops.Begin(now, idx)), Ops.End(now, idx));
    match reply
    case Answer(_, latencyMs) => Ops.Apply(q, Ops.TimedSuccess(now, idx, latencyMs))
    case Fault(_) => Ops.Apply(q, Ops.Failure(now, idx))
  }

  function NameOf(p: PoolState, idx: nat): Mix64.Bytes {
    if idx < |p.nodes| then p.nodes[idx].name else []
  }

  /** The flight after calling backend `idx`, before asking for a retry. */
  ghost function Tried(f: Flight, pool: PoolState, now: u64, idx: nat, reply: Reply): Flight {
    var isRetry := f.tried != [];
    f.(pool := Called(pool, now, idx, reply),
       selected := if f.selected.None? then Some(idx) else f.selected,
       failovers := f.failovers + (if isRetry then 1 else 0),
       attempts := f.attempts + [Attempt(idx, NameOf(pool, idx), reply.Answer?, reply.latencyMs, isRetry)],
       tried := if reply.Answer? then f.tried else f.tried + [idx])
  }

  /** One turn of the loop; an ending if the loop stops there. */
  ghost function Turn(
      f: Flight, now: u64, key: Option<Mix64.Bytes>, upstream: nat -> Reply,
      maxRetries: nat): (Flight, Option<Ending>)
  {
    var (pool, choice) := Select(f.pool, now, key, f.tried);
    match choice
    case None => (f.(pool := pool), Some(NoBackend))
    case Some(idx) =>
      var reply := upstream(idx);
      var f' := Tried(f, pool, now, idx, reply);
      match reply
      case Answer(status, _) => (f', Some(Answered(status)))
      case Fault(_) =>
        if |f'.tried| > maxRetries then (f', Some(GaveUp))
        else if !Affords(f'.budget) then (f'.(budget := Retried(f'.budget)), Some(GaveUp))
        else (f'.(budget := Retried(f'.budget), retries := f'.retries + 1), None)
  }

  lemma {:induction false} TurnAdvances(
      f: Flight, now: u64, key: Option<Mix64.Bytes>, upstream: nat -> Reply, maxRetries: nat)
    ensures Turn(f, now, key, upstream, maxRetries).1.None?
            ==> |Turn(f, now, key, upstream, maxRetries).0.tried| == |f.tried| + 1 <= maxRetries
  {
    hide Select, Called;
  }

  ghost function Landing(
      f: Flight, now: u64, key: Option<Mix64.Bytes>, upstream: nat -> Reply, maxRetries: nat): (Flight, Ending)
    requires |f.tried| <= maxRetries
    decreases maxRetries - |f.tried|
  {
    TurnAdvances(f, now, key, upstream, maxRetries);
    var (f', ending) := Turn(f, now, key, upstream, maxRetries);
    match ending
    case Some(e) => (f', e)
    case None => Landing(f', now, key, upstream, maxRetries)
  }

  /** The loop unrolled once. */
  lemma {:induction false} LandingTurns(
      f: Flight, now: u64, key: Option<Mix64.Bytes>, upstream: nat -> Reply, maxRetries: nat)
    requires |f.tried| <= maxRetries
    ensures var (f', ending) := Turn(f, now, key, upstream, maxRetries);
            match ending
            case Some(e) => Landing(f, now, key, upstream, maxRetries) == (f', e)
            case None => |f'.tried| == |f.tried| + 1 <= maxRetries
                         && Landing(f, now, key, upstream, maxRetries) == Landing(f', now, key, upstream, maxRetries)
  {
    hide Turn;
    TurnAdvances(f, now, key, upstream, maxRetries);
  }

  ghost function ResponseOf(f: Flight, e: Ending): Response {
    match e
    case Answered(status) => Ok(status)
    case GaveUp => Err(AllAttemptsFailed(|f.tried|))
    case NoBackend => Err(if f.attempts == [] then NoHealthyUpstream else AllAttemptsFailed(|f.tried|))
  }

  datatype ProxyState = ProxyState(
    pools: map<Name, PoolState>,
    budget: Budget,
    totalRequests: nat,
    totalRetries: nat,
    totalFailovers: nat)

  /** Handle one request: `route` is what the router matched, `upstream` what each
      backend would answer (a request calls each backend at most once). */
  ghost function Handled(
      s: ProxyState, now: u64, route: Option<Name>, key: Option<Mix64.Bytes>,
      upstream: nat -> Reply): (ProxyState, HandleResult)
  {
    var s' := s.(totalRequests := s.totalRequests + 1, budget := Deposited(s.budget));
    if route.None? || route.value !in s.pools then
      (s', HandleResult(route, None, Err(NoRoute), []))
    else
      var (f, e) := Flown(s, now, route.value, key, upstream);
      (s'.(pools := s.pools[route.value := f.pool],
           budget := f.budget,
           totalRetries := s.totalRetries + f.retries,
           totalFailovers := s.totalFailovers + f.failovers),
       HandleResult(route, f.selected, ResponseOf(f, e), f.attempts))
  }

  /** The whole loop of one routed request, from the poll on. */
  ghost function Flown(
      s: ProxyState, now: u64, service: Name, key: Option<Mix64.Bytes>, upstream: nat -> Reply): (Flight, Ending)
    requires service in s.pools
  {
    Landing(Takeoff(Polled(s.pools[service], now), Deposited(s.budget)), now, key, upstream,
            s.budget.cfg.maxRetriesPerRequest)
  }
}
