/** Requests as runs of pool operations, and why their calls are guarded: the proxy
    polls once and then checks and calls one backend after the other. */
module ProxyTrials {
  import opened Prelude
  import opened Breaker
  import opened Backends
  import opened Pools
  import opened PoolLaws
  import opened PoolTrials
  import opened Trials
  import opened Proxying
  import opened ProxyLaws
  import Ops = PoolRuns
  import Runs = ProxyRuns
  import Retry
  import Mix64

  // ---- the operations of a request -------------------------------------------

  function Outcome(now: u64, idx: nat, reply: Reply): Ops.Event {
    match reply
    case Answer(_, latencyMs) => Ops.TimedSuccess(now, idx, latencyMs)
    case Fault(_) => Ops.Failure(now, idx)
  }

  ghost function TurnEvents(f: Flight, now: u64, key: Option<Mix64.Bytes>, upstream: nat -> Reply): seq<Ops.Event> {
    match Select(f.pool, now, key, f.tried).1
    case None => [Ops.Select(now, key, f.tried)]
    case Some(idx) =>
      [Ops.Select(now, key, f.tried), Ops.Begin(now, idx), Ops.End(now, idx), Outcome(now, idx, upstream(idx))]
  }

  ghost function LandingEvents(
      f: Flight, now: u64, key: Option<Mix64.Bytes>, upstream: nat -> Reply, maxRetries: nat): seq<Ops.Event>
    requires |f.tried| <= maxRetries
    decreases maxRetries - |f.tried|
  {
    TurnAdvances(f, now, key, upstream, maxRetries);
    var (f', ending) := Turn(f, now, key, upstream, maxRetries);
    TurnEvents(f, now, key, upstream)
    + if ending.None? then LandingEvents(f', now, key, upstream, maxRetries) else []
  }

  /** Everything a routed request does to its pool, in order. */
  ghost function RequestEvents(
      s: ProxyState, now: u64, service: Name, key: Option<Mix64.Bytes>, upstream: nat -> Reply): seq<Ops.Event>
    requires service in s.pools
  {
    [Ops.Poll(now)]
    + LandingEvents(Takeoff(Polled(s.pools[service], now), Deposited(s)), now, key, upstream,
                    s.budget.cfg.maxRetriesPerRequest)
  }

  ghost function Deposited(s: ProxyState): Retry.Budget {
    Retry.Deposited(s.budget)
  }

  // ---- runs one after the other ------------------------------------------------

  lemma {:induction false} AfterJoin(p: PoolState, a: seq<Ops.Event>, b: seq<Ops.Event>, k: nat)
    requires k <= |a| + |b|
    ensures Ops.After(p, a + b, k)
            == if k <= |a| then Ops.After(p, a, k) else Ops.After(Ops.After(p, a, |a|), b, k - |a|)
  {
    hide Ops.Apply;
    if k > 0 {
      AfterJoin(p, a, b, k - 1);
    }
  }

  /** Every call of the run begins on a backend found available, its breaker polled,
      at the very moment it begins. */
  ghost predicate CallsChecked(p: PoolState, es: seq<Ops.Event>) {
    forall j :: 0 <= j < |es| && es[j].Begin? ==> CheckedAt(Ops.After(p, es, j), es[j])
  }

  ghost predicate CheckedAt(p: PoolState, e: Ops.Event)
    requires e.Begin?
  {
    e.i < |p.nodes| && Checked(p.nodes[e.i], e.now)
  }

  lemma {:induction false} ChecksJoin(p: PoolState, a: seq<Ops.Event>, b: seq<Ops.Event>)
    requires CallsChecked(p, a) && CallsChecked(Ops.After(p, a, |a|), b)
    ensures CallsChecked(p, a + b)
  {
    hide Ops.After, CheckedAt;
    var es := a + b;
    forall j | 0 <= j < |es| && es[j].Begin? ensures CheckedAt(Ops.After(p, es, j), es[j]) {
      AfterJoin(p, a, b, j);
      if j < |a| {
        assert es[j] == a[j];
      } else {
        assert es[j] == b[j - |a|];
        AfterStart(Ops.After(p, a, |a|), b);
      }
    }
  }

  lemma {:induction false} AfterStart(p: PoolState, es: seq<Ops.Event>)
    ensures Ops.After(p, es, 0) == p
  {
  }

  /** A checked call is a guarded one. */
  lemma {:induction false} CheckedIsGuarded(p: PoolState, es: seq<Ops.Event>, i: nat, k: nat)
    requires k < |es| && CallsChecked(p, es) && BeginsCallTo(es[k], i)
    ensures GuardedCall(p, es, i, k)
  {
    hide Ops.After, Checked;
    assert CheckedAt(Ops.After(p, es, k), es[k]);
  }

  // ---- one turn ----------------------------------------------------------------

  /** All breakers have been polled at this instant. */
  ghost predicate Current(p: PoolState, now: u64) {
    forall i :: 0 <= i < |p.nodes| ==> p.nodes[i].circuit.Polled(now) == p.nodes[i].circuit
  }

  lemma {:induction false} PickIsChecked(
      p: PoolState, q: PoolState, now: u64, upstream: nat -> Reply, tried: seq<nat>, i: nat)
    requires PoolTracks(p, q, now, upstream, tried) && Eligible(p, now, tried, i) && Current(p, now)
    ensures i < |q.nodes| && Checked(q.nodes[i], now)
  {
    hide Inv, NodeTracks, Circuit.Polled, Circuit.Admits;
    TrackedNode(p, q, now, upstream, tried, i);
  }

  lemma {:induction false} RunOf1(p: PoolState, a: Ops.Event)
    ensures Ops.After(p, [a], 1) == Ops.Apply(p, a)
  {
    hide Ops.Apply;
    AfterStart(p, [a]);
  }

  lemma {:induction false} RunOf4(p: PoolState, a: Ops.Event, b: Ops.Event, c: Ops.Event, d: Ops.Event)
    ensures Ops.After(p, [a, b, c, d], 1) == Ops.Apply(p, a)
    ensures Ops.After(p, [a, b, c, d], 4) == Ops.Apply(Ops.Apply(Ops.Apply(Ops.Apply(p, a), b), c), d)
  {
    hide Ops.Apply;
    var es := [a, b, c, d];
    assert Ops.After(p, es, 0) == p;
    assert Ops.After(p, es, 2) == Ops.Apply(Ops.Apply(p, a), b);
  }

  /** The turn is the run of its operations, and its call, if any, is checked. */
  lemma {:induction false} TurnIsCheckedRun(
      p: PoolState, b: Retry.Budget, now: u64, key: Option<Mix64.Bytes>, upstream: nat -> Reply, maxRetries: nat,
      f: Flight)
    requires Serving(p, b, now, upstream, f) && Current(p, now)
    ensures var es := TurnEvents(f, now, key, upstream);
            && Ops.After(f.pool, es, |es|) == Turn(f, now, key, upstream, maxRetries).0.pool
            && CallsChecked(f.pool, es)
  {
    hide Select, PoolTracks, Exhausted, AttemptsTrack, CountersTrack, Eligible, Ops.After, Checked, Current;
    SelectTracks(p, f.pool, f.tried, now, key, upstream);
    var (pool, choice) := Select(f.pool, now, key, f.tried);
    var select := Ops.Select(now, key, f.tried);
    assert Ops.Apply(f.pool, select) == pool;
    match choice
    case None =>
      RunOf1(f.pool, select);
    case Some(idx) =>
      var begin, end, outcome := Ops.Begin(now, idx), Ops.End(now, idx), Outcome(now, idx, upstream(idx));
      RunOf4(f.pool, select, begin, end, outcome);
      CalledRuns(pool, now, idx, upstream(idx));
      PickIsChecked(p, pool, now, upstream, f.tried, idx);
      assert CheckedAt(pool, begin);
  }

  lemma {:induction false} CalledRuns(p: PoolState, now: u64, idx: nat, reply: Reply)
    ensures Ops.Apply(Ops.Apply(Ops.Apply(p, Ops.Begin(now, idx)), Ops.End(now, idx)), Outcome(now, idx, reply))
            == Called(p, now, idx, reply)
  {
    hide Ops.Apply;
  }

  // ---- the request ---------------------------------------------------------------

  lemma {:induction false} LandingIsCheckedRun(
      p: PoolState, b: Retry.Budget, now: u64, key: Option<Mix64.Bytes>, upstream: nat -> Reply, maxRetries: nat,
      f: Flight)
    requires Serving(p, b, now, upstream, f) && Current(p, now) && |f.tried| <= maxRetries
    ensures var es := LandingEvents(f, now, key, upstream, maxRetries);
            && Ops.After(f.pool, es, |es|) == Landing(f, now, key, upstream, maxRetries).0.pool
            && CallsChecked(f.pool, es)
    decreases maxRetries - |f.tried|
  {
    hide Turn, TurnEvents, Serving, Landed, Ops.After, CallsChecked, Current;
    TurnIsCheckedRun(p, b, now, key, upstream, maxRetries, f);
    TurnLands(p, b, now, key, upstream, maxRetries, f);
    TurnAdvances(f, now, key, upstream, maxRetries);
    var (f', ending) := Turn(f, now, key, upstream, maxRetries);
    var es := TurnEvents(f, now, key, upstream);
    if ending.None? {
      LandingIsCheckedRun(p, b, now, key, upstream, maxRetries, f');
      var rest := LandingEvents(f', now, key, upstream, maxRetries);
      AfterJoin(f.pool, es, rest, |es + rest|);
      AfterStart(f'.pool, rest);
      ChecksJoin(f.pool, es, rest);
    } else {
      assert es + [] == es;
    }
  }

  /** A request is a run of pool operations on its pool, from its one poll through
      any number of selections to its last outcome, and every call it makes is
      checked at the moment it begins. */
  lemma {:induction false} RequestIsCheckedRun(
      s: ProxyState, now: u64, service: Name, key: Option<Mix64.Bytes>, upstream: nat -> Reply)
    requires service in s.pools && Inv(s.pools[service])
    ensures var es := RequestEvents(s, now, service, key, upstream);
            && Ops.After(s.pools[service], es, |es|) == Handled(s, now, Some(service), key, upstream).0.pools[service]
            && CallsChecked(s.pools[service], es)
  {
    hide Inv, Landing, LandingEvents, Serving, Ops.After, CallsChecked, Current, Polled;
    var p := Polled(s.pools[service], now);
    var f := Takeoff(p, Deposited(s));
    var es := LandingEvents(f, now, key, upstream, s.budget.cfg.maxRetriesPerRequest);
    ApplyKeepsInv(s.pools[service], Ops.Poll(now));
    PollIsCheckedRun(s.pools[service], now);
    TakeoffServes(p, Deposited(s), now, upstream);
    LandingIsCheckedRun(p, Deposited(s), now, key, upstream, s.budget.cfg.maxRetriesPerRequest, f);
    AfterJoin(s.pools[service], [Ops.Poll(now)], es, 1 + |es|);
    AfterStart(p, es);
    ChecksJoin(s.pools[service], [Ops.Poll(now)], es);
  }

  lemma {:induction false} PollIsCheckedRun(p: PoolState, now: u64)
    ensures Ops.Apply(p, Ops.Poll(now)) == Polled(p, now)
    ensures Ops.After(p, [Ops.Poll(now)], 1) == Polled(p, now)
    ensures CallsChecked(p, [Ops.Poll(now)]) && Current(Polled(p, now), now)
  {
    hide Polled;
    RunOf1(p, Ops.Poll(now));
    PollPolls(p, now);
  }

  lemma {:induction false} PollPolls(p: PoolState, now: u64)
    ensures Current(Polled(p, now), now)
  {
    hide Line, Node.Polled, Circuit.Polled;
    forall i | 0 <= i < |p.nodes|
      ensures var c := Polled(p, now).nodes[i].circuit; c.Polled(now) == c
    {
      PollMakesCurrent(p, now, i);
    }
  }

  // ---- whole runs of the proxy -----------------------------------------------

  /** What one event of the proxy does to the pool of one service. */
  ghost function EventOps(q: ProxyState, e: Runs.Event, service: Name): seq<Ops.Event> {
    match e
    case OnPool(name, op) => if name == service then [op] else []
    case Request(now, route, key, upstream) =>
      if route == Some(service) && service in q.pools then RequestEvents(q, now, service, key, upstream) else []
  }

  /** What a run of the proxy does to it. */
  ghost function PoolEvents(s: ProxyState, es: seq<Runs.Event>, service: Name, k: nat): seq<Ops.Event>
    requires k <= |es|
  {
    if k == 0 then []
    else
      PoolEvents(s, es, service, k - 1) + EventOps(Runs.After(s, es, k - 1), es[k - 1], service)
  }

  /** Operations outside requests begin calls only on checked backends. */
  ghost predicate OutsideCallsChecked(s: ProxyState, e: Runs.Event) {
    e.OnPool? && e.op.Begin? && e.service in s.pools ==> CheckedAt(s.pools[e.service], e.op)
  }

  /** So every run of the proxy is, for the pool of each service, a run of pool
      operations whose calls are all checked, and the half-open cap of such runs
      holds under any mix of requests and checked calls outside them. */
  lemma {:induction false} ProxyRunIsCheckedRun(s: ProxyState, es: seq<Runs.Event>, service: Name, k: nat)
    requires k <= |es| && Runs.PoolsInv(s) && service in s.pools
    requires forall j :: 0 <= j < k ==> OutsideCallsChecked(Runs.After(s, es, j), es[j])
    ensures Runs.PoolsInv(Runs.After(s, es, k)) && service in Runs.After(s, es, k).pools
    ensures var os := PoolEvents(s, es, service, k);
            && Runs.After(s, es, k).pools[service] == Ops.After(s.pools[service], os, |os|)
            && CallsChecked(s.pools[service], os)
  {
    hide Runs.Apply, Runs.PoolsInv, RequestEvents, Ops.After, CallsChecked, OutsideCallsChecked;
    if k == 0 {
      AfterStart(s.pools[service], []);
      NothingToCheck(s.pools[service]);
    } else {
      ProxyRunIsCheckedRun(s, es, service, k - 1);
      var q, e := Runs.After(s, es, k - 1), es[k - 1];
      Runs.ApplyKeepsPools(q, e);
      EventIsCheckedRun(q, e, service);
      var os, more := PoolEvents(s, es, service, k - 1), EventOps(q, e, service);
      AfterJoin(s.pools[service], os, more, |os + more|);
      AfterStart(q.pools[service], more);
      ChecksJoin(s.pools[service], os, more);
    }
  }

  lemma {:induction false} NothingToCheck(p: PoolState)
    ensures CallsChecked(p, [])
  {
  }

  lemma {:induction false} EventIsCheckedRun(q: ProxyState, e: Runs.Event, service: Name)
    requires Runs.PoolsInv(q) && service in q.pools && OutsideCallsChecked(q, e)
    ensures var os := EventOps(q, e, service);
            && service in Runs.Apply(q, e).pools
            && Runs.Apply(q, e).pools[service] == Ops.After(q.pools[service], os, |os|)
            && CallsChecked(q.pools[service], os)
  {
    hide Inv, Handled, RequestEvents, Ops.After, CheckedAt, Ops.Apply;
    AfterStart(q.pools[service], []);
    NothingToCheck(q.pools[service]);
    Runs.ApplyKeepsPools(q, e);
    match e
    case OnPool(name, op) =>
      if name == service {
        RunOf1(q.pools[service], op);
        AfterStart(q.pools[service], [op]);
      }
    case Request(now, route, key, upstream) =>
      if route == Some(service) {
        RequestIsCheckedRun(q, now, service, key, upstream);
      } else if Runs.Routed(q, e) {
        AttemptsRecorded(q, now, route.value, key, upstream);
      } else {
        Runs.UnroutedMakesNoAttempt(q, e);
      }
  }

  /** The half-open cap in service: from a new pool on, under any mix of requests and
      of checked calls outside them, the calls to a backend in flight that began
      since its breaker last tripped number at most `max(half_open_max_calls, 1)`
      until the breaker closes. */
  lemma {:induction false} HalfOpenCapInService(
      s: ProxyState, es: seq<Runs.Event>, service: Name, k: nat, strategy: Strategy, health: HealthConfig,
      call: seq<nat>, i: nat)
    requires k <= |es| && Runs.PoolsInv(s) && service in s.pools && s.pools[service] == NewPool(strategy, health)
    requires forall j :: 0 <= j < k ==> OutsideCallsChecked(Runs.After(s, es, j), es[j])
    requires Matched(Ops.Trace(s.pools[service], PoolEvents(s, es, service, k), i), call)
    ensures service in Runs.After(s, es, k).pools
    ensures var p, os := s.pools[service], PoolEvents(s, es, service, k);
            i < |Runs.After(s, es, k).pools[service].nodes| ==>
              && i < |Ops.After(p, os, |os|).nodes|
              && var n, tr := Ops.Origin(p, os, i, |os|), Ops.Trace(p, os, i);
                 var q := Runs.After(s, es, k).pools[service].nodes[i];
                 && |TrialCalls(n, tr, call, |os|)| <= Max(q.circuit.cfg.halfOpenMaxCalls, 1)
                 && q.inFlight == |InFlight(tr, call, |os|)|
  {
    hide Runs.After, Runs.PoolsInv, PoolEvents, Ops.After, Ops.Trace, Ops.Origin, Matched, TrialCalls, InFlight,
         OutsideCallsChecked, CallsChecked, GuardedCall;
    ProxyRunIsCheckedRun(s, es, service, k);
    var p, os := s.pools[service], PoolEvents(s, es, service, k);
    if i < |Ops.After(p, os, |os|).nodes| {
      forall j | 0 <= j < |os| && BeginsCallTo(os[j], i) ensures GuardedCall(p, os, i, j) {
        CheckedIsGuarded(p, os, i, j);
      }
      PoolTrials.HalfOpenCap(strategy, health, os, call, i, |os|);
    }
  }
}
