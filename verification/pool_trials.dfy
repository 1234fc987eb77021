/** The half-open trial cap inside any run of a pool, and the runs of unguarded
    calls that break it. */
module PoolTrials {
  import opened Prelude
  import opened Backends
  import opened Pools
  import opened PoolRuns
  import opened PoolLaws
  import opened Trials
  import Mix64
  import Runs = BackendRuns

  predicate BeginsCallTo(e: Event, i: nat) {
    e.Begin? && e.i == i
  }

  /** A call to backend `i` at event `k` is guarded: the backend was found available
      with its breaker polled at some point before, and no other call to it began
      since. */
  ghost predicate GuardedCall(p: PoolState, es: seq<Event>, i: nat, k: nat)
    requires k <= |es|
  {
    exists c: nat, now: u64 ::
      && c <= k && i < |After(p, es, c).nodes| && Checked(After(p, es, c).nodes[i], now)
      && forall j :: c <= j < k ==> !BeginsCallTo(es[j], i)
  }

  lemma {:induction false} SeenBegin(p: PoolState, e: Event, i: nat)
    ensures Seen(p, e, i).Begin? ==> BeginsCallTo(e, i)
  {
    hide Apply, Line;
  }

  lemma {:induction false} GuardedInTrace(p: PoolState, es: seq<Event>, i: nat, j: nat, k: nat)
    requires j <= k <= |es| && GuardedCall(p, es, i, j) && i < |After(p, es, k).nodes|
    ensures Guarded(Origin(p, es, i, k), Trace(p, es, i), j)
  {
    hide Apply, Seen, Origin, Trace, After, Runs.After, Checked;
    var c: nat, now: u64 :|
      && c <= j && i < |After(p, es, c).nodes| && Checked(After(p, es, c).nodes[i], now)
      && forall m :: c <= m < j ==> !BeginsCallTo(es[m], i);
    BackendRunsInPool(p, es, i, c);
    OriginFixed(p, es, i, c, k);
    var tr := Trace(p, es, i);
    forall m | c <= m < j ensures !tr[m].Begin? {
      TraceAt(p, es, i, m);
      SeenBegin(After(p, es, m), es[m], i);
    }
    assert Checked(Runs.After(Origin(p, es, i, k), tr, c), now) && NoBegin(tr, c, j);
  }

  /** Half-open cap in every run of a new pool, for every backend added to it: polls,
      selections, calls that begin and end, outcomes, probes and changes of
      strategy interleave in any order, and calls are matched by `call`. If each
      call to the backend is guarded, its calls in flight that began since its
      breaker last tripped number at most `max(half_open_max_calls, 1)` until the
      breaker closes. */
  lemma {:induction false} HalfOpenCap(
      strategy: Strategy, health: HealthConfig, es: seq<Event>, call: seq<nat>, i: nat, k: nat)
    requires k <= |es| && i < |After(NewPool(strategy, health), es, k).nodes|
    requires Matched(Trace(NewPool(strategy, health), es, i), call)
    requires forall j :: 0 <= j < k && BeginsCallTo(es[j], i) ==> GuardedCall(NewPool(strategy, health), es, i, j)
    ensures var p := NewPool(strategy, health);
            var n, tr, q := Origin(p, es, i, k), Trace(p, es, i), After(p, es, k).nodes[i];
            && |TrialCalls(n, tr, call, k)| <= Max(q.circuit.cfg.halfOpenMaxCalls, 1)
            && q.inFlight == |InFlight(tr, call, k)|
  {
    hide Apply, Seen, Origin, Trace, After, Runs.After, Guarded, GuardedCall, TrialCalls, InFlight, Matched;
    var p := NewPool(strategy, health);
    var n, tr := Origin(p, es, i, k), Trace(p, es, i);
    var a := JoinsAsAdded(p, es, i, k);
    forall j | 0 <= j < k && tr[j].Begin? ensures Guarded(n, tr, j) {
      TraceAt(p, es, i, j);
      SeenBegin(After(p, es, j), es[j], i);
      GuardedInTrace(p, es, i, j, k);
    }
    BackendRunsInPool(p, es, i, k);
    TripsOverRun(n, tr, 0, k);
    Trials.HalfOpenCap(n, tr, call, k);
  }

  /** A selection is such a check, for the backend it answers, if the breaker of
      that backend was polled at the same instant; a poll does that. */
  lemma {:induction false} SelectionChecks(p: PoolState, now: u64, key: Option<Mix64.Bytes>, exclude: seq<nat>, i: nat)
    requires Inv(p) && Pools.Select(p, now, key, exclude).1 == Some(i)
    ensures i < |p.nodes|
    ensures p.nodes[i].circuit.Polled(now) == p.nodes[i].circuit
            ==> Checked(Pools.Select(p, now, key, exclude).0.nodes[i], now)
  {
    hide Inv, Pools.Select;
    SelectionSoundAndComplete(p, now, key, exclude);
    SelectKeepsNodes(p, now, key, exclude);
  }

  lemma {:induction false} PollMakesCurrent(p: PoolState, now: u64, i: nat)
    requires i < |p.nodes|
    ensures var c := Polled(p, now).nodes[i].circuit;
            c == p.nodes[i].circuit.Polled(now) && c.Polled(now) == c
  {
    hide Line, Node.Polled;
    PollKeeps(p.nodes[i], now, p.ewma, Line(p));
  }
}
