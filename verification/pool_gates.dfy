/** The backends of a pool, told from the history of the pool: what they are, and when
    they are available. */
module PoolGates {
  import opened Prelude
  import opened Backends
  import opened Pools
  import opened PoolRuns
  import opened PoolHistory
  import opened Trials
  import opened Gates
  import Ewma
  import Histories = BackendRuns

  /** A backend in a new pool joined at one event, and keeps the name, the weight and
      the breaker configuration it was added with. */
  lemma {:induction false} KeepsIdentity(strategy: Strategy, health: HealthConfig, es: seq<Event>, i: nat, k: nat)
    returns (a: nat)
    requires k <= |es| && i < |After(NewPool(strategy, health), es, k).nodes|
    ensures a < k && es[a].AddBackend? && i == |After(NewPool(strategy, health), es, a).nodes|
    ensures var n, o := After(NewPool(strategy, health), es, k).nodes[i], Origin(NewPool(strategy, health), es, i, k);
            && n.name == o.name == es[a].name && n.weight == o.weight == es[a].weight
            && n.circuit.cfg == o.circuit.cfg == es[a].breaker
            && o.healthy == es[a].health.startHealthy && o.probeFailures == 0 && o.probeSuccesses == 0
            && o.inFlight == 0 && o.served == 0 && o.rampPercent == 100 && o.lastRampStep.None?
  {
    hide Apply, Origin, Trace, Histories.After;
    var p := NewPool(strategy, health);
    a := JoinsAsAdded(p, es, i, k);
    BackendRunsInPool(p, es, i, k);
    IdentityFixed(Origin(p, es, i, k), Trace(p, es, i), k);
  }

  lemma {:induction false} IdentityFixed(n: Node, tr: seq<Histories.Event>, k: nat)
    requires k <= |tr|
    ensures var n' := Histories.After(n, tr, k);
            n'.name == n.name && n'.weight == n.weight && n'.circuit.cfg == n.circuit.cfg
  {
    hide Histories.Apply;
    if k > 0 {
      IdentityFixed(n, tr, k - 1);
      IdentityStep(Histories.After(n, tr, k - 1), tr[k - 1]);
    }
  }

  lemma {:induction false} IdentityStep(n: Node, e: Histories.Event)
    ensures var n' := Histories.Apply(n, e);
            n'.name == n.name && n'.weight == n.weight && n'.circuit.cfg == n.circuit.cfg
  {
    hide Node.Polled, Ewma.EwmaConfig.Fold;
    if e.Poll? {
      PollKeeps(n, e.now, e.ewma, e.line);
    }
  }

  lemma {:induction false} ProbesSeen(p: PoolState, es: seq<Event>, i: nat)
    ensures forall j :: 0 <= j < |es| && Trace(p, es, i)[j].Probe? ==> Trace(p, es, i)[j].health == p.health
  {
    hide Apply, Seen, Trace;
    forall j | 0 <= j < |es| && Trace(p, es, i)[j].Probe?
      ensures Trace(p, es, i)[j].health == p.health
    {
      TraceAt(p, es, i, j);
      ProbeSeen(After(p, es, j), es[j], i);
      HealthFixed(p, es, j);
    }
  }

  lemma {:induction false} ProbeSeen(p: PoolState, e: Event, i: nat)
    requires Seen(p, e, i).Probe?
    ensures Seen(p, e, i) == Histories.Probe(e.now, p.health, e.HealthChecks? && i !in e.dead)
  {
    hide Apply, Line;
  }

  /** Exactly when a backend of a new pool is available, for every run on a clock that
      never goes back: the probes really made leave it up from its configured start;
      its latest ejection, of either kind, has ended; the reference model of its
      breaker lets a call through; and under a trial, its calls in flight leave a slot
      of the `max(half_open_max_calls, 1)`. */
  lemma {:induction false} AvailableExactlyWhen(
      strategy: Strategy, health: HealthConfig, es: seq<Event>, call: seq<nat>, i: nat, k: nat, now: u64)
    returns (a: nat)
    requires k <= |es| && Timely(es) && (k > 0 ==> es[k - 1].now <= now)
    requires i < |After(NewPool(strategy, health), es, k).nodes|
    requires Matched(Trace(NewPool(strategy, health), es, i), call)
    ensures a < k && es[a].AddBackend? && i == |After(NewPool(strategy, health), es, a).nodes|
    ensures var p := NewPool(strategy, health);
            var n, tr := Origin(p, es, i, k), Trace(p, es, i);
            var arms := Histories.Armings(n, tr, k);
            After(p, es, k).nodes[i].IsAvailable(now)
            <==> && ProbedUp(n, es[a].health.startHealthy, tr, health, k)
                 && (|arms| > 0 ==> arms[|arms| - 1].Until() <= now)
                 && RefAdmits(es[a].breaker, tr, call, k, now)
  {
    hide Apply, Origin, Trace, Histories.After, Histories.Armings, ProbedUp, RefAdmits, Node.IsAvailable, Matched;
    var p := NewPool(strategy, health);
    a := KeepsIdentity(strategy, health, es, i, k);
    EntersNew(strategy, health, es, i, k);
    BackendRunsInPool(p, es, i, k);
    TraceTimely(p, es, i);
    if k > 0 {
      TraceAt(p, es, i, k - 1);
    }
    ProbesSeen(p, es, i);
    Gates.AvailableExactlyWhen(Origin(p, es, i, k), es[a].health.startHealthy, Trace(p, es, i), call, health, k, now);
  }
}
