/** The pool over whole runs: what every sequence of operations keeps. */
module PoolRuns {
  import opened Prelude
  import opened Ewma
  import opened Breaker
  import opened Backends
  import opened Pools
  import SmoothWrr
  import HashRing
  import Mix64
  import Runs = BackendRuns

  /** Any operation on a pool, stamped with the clock. Probe answers, outcomes,
      latencies, keys and exclusions are arbitrary inputs. */
  datatype Event =
    | AddBackend(now: u64, name: Mix64.Bytes, weight: u32, health: HealthConfig, breaker: BreakerConfig)
    | Poll(now: u64)
    | Select(now: u64, key: Option<Mix64.Bytes>, exclude: seq<nat>)
    | Begin(now: u64, i: nat)
    | End(now: u64, i: nat)
    | Success(now: u64, i: nat)
    | TimedSuccess(now: u64, i: nat, latencyMs: u64)
    | Failure(now: u64, i: nat)
    | HealthChecks(now: u64, dead: set<nat>)
    | SetStrategy(now: u64, strategy: Strategy)
    | EnableEwma(now: u64, cfg: EwmaConfig)

  /** The operations that name a backend need it to exist. */
  predicate Legal(p: PoolState, e: Event) {
    e.Begin? || e.End? || e.Success? || e.TimedSuccess? || e.Failure? ==> e.i < |p.nodes|
  }

  ghost function Apply(p: PoolState, e: Event): PoolState {
    if !Legal(p, e) then p
    else
      match e
      case AddBackend(_, name, weight, health, breaker) => Added(p, NewNode(name, weight, health, breaker))
      case Poll(now) => Polled(p, now)
      case Select(now, key, exclude) => Pools.Select(p, now, key, exclude).0
      case Begin(_, i) => WithNode(p, i, p.nodes[i].Began())
      case End(_, i) => WithNode(p, i, p.nodes[i].Ended())
      case Success(now, i) => WithNode(p, i, p.nodes[i].Succeeded(now))
      case TimedSuccess(now, i, latencyMs) => WithNode(p, i, p.nodes[i].SucceededIn(now, p.ewma, latencyMs))
      case Failure(now, i) => WithNode(p, i, p.nodes[i].Failed(now, p.health))
      case HealthChecks(now, dead) => Probed(p, now, dead)
      case SetStrategy(_, strategy) => p.(strategy := strategy)
      case EnableEwma(_, cfg) => p.(ewma := Some(cfg))
  }

  ghost function After(p: PoolState, es: seq<Event>, k: nat): PoolState
    requires k <= |es|
  {
    if k == 0 then p else Apply(After(p, es, k - 1), es[k - 1])
  }

  // ---- each backend of a pool runs as a backend ---------------------------

  /** What one pool operation is for backend `i`. */
  ghost function Seen(p: PoolState, e: Event, i: nat): Runs.Event {
    if !Legal(p, e) || i >= |p.nodes| then Runs.Idle(e.now)
    else
      match e
      case Poll(now) => Runs.Poll(now, p.ewma, Line(p))
      case Select(now, _, _) => Runs.Weigh(now, Apply(p, e).nodes[i].currentWeight)
      case Begin(now, j) => if i == j then Runs.Begin(now) else Runs.Idle(now)
      case End(now, j) => if i == j then Runs.End(now) else Runs.Idle(now)
      case Success(now, j) => if i == j then Runs.Success(now) else Runs.Idle(now)
      case TimedSuccess(now, j, latencyMs) =>
        if i == j then Runs.TimedSuccess(now, p.ewma, latencyMs) else Runs.Idle(now)
      case Failure(now, j) => if i == j then Runs.Failure(now, p.health) else Runs.Idle(now)
      case HealthChecks(now, dead) => Runs.Probe(now, p.health, i !in dead)
      case _ => Runs.Idle(e.now)
  }

  /** The run of backend `i` inside a run of its pool. */
  ghost function Trace(p: PoolState, es: seq<Event>, i: nat): (tr: seq<Runs.Event>)
    ensures |tr| == |es|
  {
    seq(|es|, j requires 0 <= j < |es| => Seen(After(p, es, j), es[j], i))
  }

  lemma {:induction false} SelectKeepsNodes(p: PoolState, now: u64, key: Option<Mix64.Bytes>, exclude: seq<nat>)
    ensures var p' := Pools.Select(p, now, key, exclude).0;
            && |p'.nodes| == |p.nodes|
            && (forall i :: 0 <= i < |p.nodes|
                  ==> p'.nodes[i] == p.nodes[i].(currentWeight := p'.nodes[i].currentWeight))
            && (!p.strategy.Weighted? ==> p'.nodes == p.nodes)
            && p'.strategy == p.strategy && p'.health == p.health && p'.ewma == p.ewma
  {
    hide WeightedPick, HashPick, LeastBusyTo, AvailableTo;
    AvailableIsCandidates(p.nodes, now, exclude, |p.nodes|);
    var a := Available(p, now, exclude);
    WeightedPickKeeps(p, a);
    if a != [] {
      HashPickKeeps(p, a, key);
    }
  }

  lemma {:induction false} WeightedPickKeeps(p: PoolState, a: seq<nat>)
    ensures var p' := WeightedPick(p, a).0;
            && |p'.nodes| == |p.nodes| && p' == p.(nodes := p'.nodes)
            && (forall i :: 0 <= i < |p.nodes|
                  ==> p'.nodes[i] == p.nodes[i].(currentWeight := p'.nodes[i].currentWeight))
  {
    hide SmoothWrr.Next, SmoothWrr.Chosen, Scores;
  }

  lemma {:induction false} HashPickKeeps(p: PoolState, a: seq<nat>, key: Option<Mix64.Bytes>)
    requires a != [] && Indices(a, |p.nodes|)
    ensures var p' := HashPick(p, a, key).0;
            p' == p.(rrCursor := p'.rrCursor, ring := p'.ring, ringSignature := p'.ringSignature)
  {
    hide Mix64.KeyPosition, HashRing.Fresh, HashRing.Owner;
  }

  lemma {:induction false} ApplyIsSeen(p: PoolState, e: Event, i: nat)
    requires i < |p.nodes|
    ensures |Apply(p, e).nodes| >= |p.nodes|
    ensures Apply(p, e).nodes[i] == Runs.Apply(p.nodes[i], Seen(p, e, i))
  {
    hide Node.Polled, Node.Probed, Node.Failed, Node.SucceededIn, Node.Succeeded, Node.Began, Node.Ended, Line,
         Pools.Select;
    if e.Select? {
      SelectKeepsNodes(p, e.now, e.key, e.exclude);
    }
  }

  lemma {:induction false} SeenClock(p: PoolState, e: Event, i: nat)
    ensures Seen(p, e, i).now == e.now
  {
    hide Apply;
  }

  lemma {:induction false} TraceClock(p: PoolState, es: seq<Event>, i: nat)
    ensures forall j :: 0 <= j < |es| ==> Trace(p, es, i)[j].now == es[j].now
  {
    hide Apply, Seen;
    forall j | 0 <= j < |es| ensures Trace(p, es, i)[j].now == es[j].now {
      SeenClock(After(p, es, j), es[j], i);
    }
  }

  lemma {:induction false} TraceAt(p: PoolState, es: seq<Event>, i: nat, j: nat)
    requires j < |es|
    ensures Trace(p, es, i)[j] == Seen(After(p, es, j), es[j], i) && Trace(p, es, i)[j].now == es[j].now
  {
    hide Apply, Seen;
    SeenClock(After(p, es, j), es[j], i);
  }

  // ---- backends that join during the run ---------------------------------

  lemma {:induction false} NodesStay(p: PoolState, e: Event)
    ensures |p.nodes| <= |Apply(p, e).nodes|
    ensures !e.AddBackend? ==> |Apply(p, e).nodes| == |p.nodes|
    ensures |Apply(p, e).nodes| <= |p.nodes| + 1
  {
    hide Node.Polled, Node.Probed, Node.Failed, Node.SucceededIn, Node.Succeeded, Node.Began, Node.Ended, Line,
         Pools.Select;
    if e.Select? {
      SelectKeepsNodes(p, e.now, e.key, e.exclude);
    }
  }

  lemma {:induction false} NodesStayOverRun(p: PoolState, es: seq<Event>, j: nat, k: nat)
    requires j <= k <= |es|
    ensures |After(p, es, j).nodes| <= |After(p, es, k).nodes|
    decreases k
  {
    hide Apply;
    if j < k {
      NodesStayOverRun(p, es, j, k - 1);
      NodesStay(After(p, es, k - 1), es[k - 1]);
    }
  }

  /** Backend `i` as it entered the run: as it was at the start, or as the event
      that added it made it. */
  ghost function Origin(p: PoolState, es: seq<Event>, i: nat, k: nat): Node
    requires k <= |es| && i < |After(p, es, k).nodes|
  {
    if k == 0 || i >= |After(p, es, k - 1).nodes| then After(p, es, k).nodes[i] else Origin(p, es, i, k - 1)
  }

  /** It does not depend on when one looks back. */
  lemma {:induction false} OriginFixed(p: PoolState, es: seq<Event>, i: nat, j: nat, k: nat)
    requires j <= k <= |es| && i < |After(p, es, j).nodes|
    ensures i < |After(p, es, k).nodes| && Origin(p, es, i, j) == Origin(p, es, i, k)
    decreases k
  {
    hide Apply;
    if j < k {
      OriginFixed(p, es, i, j, k - 1);
      NodesStay(After(p, es, k - 1), es[k - 1]);
    }
  }

  /** A backend that was not there at the start enters exactly as it was added. */
  lemma {:induction false} JoinsAsAdded(p: PoolState, es: seq<Event>, i: nat, k: nat) returns (a: nat)
    requires k <= |es| && |p.nodes| <= i < |After(p, es, k).nodes|
    ensures a < k && es[a].AddBackend? && i == |After(p, es, a).nodes|
    ensures Origin(p, es, i, k) == NewNode(es[a].name, es[a].weight, es[a].health, es[a].breaker)
  {
    hide Apply;
    if i < |After(p, es, k - 1).nodes| {
      a := JoinsAsAdded(p, es, i, k - 1);
    } else {
      a := k - 1;
      AddedLast(After(p, es, k - 1), es[k - 1], i);
    }
  }

  lemma {:induction false} AddedLast(p: PoolState, e: Event, i: nat)
    requires |p.nodes| <= i < |Apply(p, e).nodes|
    ensures e.AddBackend? && i == |p.nodes|
    ensures Apply(p, e).nodes[i] == NewNode(e.name, e.weight, e.health, e.breaker)
  {
    NodesStay(p, e);
  }

  lemma {:induction false} SeenIdle(p: PoolState, e: Event, i: nat)
    requires i >= |p.nodes|
    ensures Seen(p, e, i) == Runs.Idle(e.now)
    ensures forall n :: Runs.Apply(n, Seen(p, e, i)) == n
  {
  }

  lemma {:induction false} IdleUntilJoined(p: PoolState, es: seq<Event>, n: Node, i: nat, k: nat)
    requires k <= |es| && forall j :: 0 <= j < k ==> i >= |After(p, es, j).nodes|
    ensures Runs.After(n, Trace(p, es, i), k) == n
  {
    hide Apply, Seen, Runs.Apply;
    if k > 0 {
      IdleUntilJoined(p, es, n, i, k - 1);
      SeenIdle(After(p, es, k - 1), es[k - 1], i);
      assert Trace(p, es, i)[k - 1] == Seen(After(p, es, k - 1), es[k - 1], i);
    }
  }

  /** In every run of a pool each backend, there from the start or added on the
      way, runs as a backend alone, with the line the pool computed for it, at the
      same clock readings. So everything proved about runs of one backend holds
      inside every run of its pool. */
  lemma {:induction false} BackendRunsInPool(p: PoolState, es: seq<Event>, i: nat, k: nat)
    requires k <= |es| && i < |After(p, es, k).nodes|
    ensures After(p, es, k).nodes[i] == Runs.After(Origin(p, es, i, k), Trace(p, es, i), k)
  {
    hide Apply, Seen, Runs.Apply;
    if k > 0 {
      if i < |After(p, es, k - 1).nodes| {
        BackendRunsInPool(p, es, i, k - 1);
        ApplyIsSeen(After(p, es, k - 1), es[k - 1], i);
        assert Trace(p, es, i)[k - 1] == Seen(After(p, es, k - 1), es[k - 1], i);
      } else {
        forall j | 0 <= j < k ensures i >= |After(p, es, j).nodes| {
          NodesStayOverRun(p, es, j, k - 1);
        }
        IdleUntilJoined(p, es, After(p, es, k).nodes[i], i, k);
      }
    }
  }
}
