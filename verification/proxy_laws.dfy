/** What every request guarantees. */
module ProxyLaws {
  import opened Prelude
  import opened Ewma
  import opened Breaker
  import opened Backends
  import opened Retry
  import opened Pools
  import opened PoolLaws
  import opened Proxying
  import Ops = PoolRuns
  import Mix64

  /** All outcomes the backends of a pool have recorded. */
  ghost function ServedTo(nodes: seq<Node>, n: nat): nat
    requires n <= |nodes|
  {
    if n == 0 then 0 else ServedTo(nodes, n - 1) + nodes[n - 1].served
  }

  ghost function ServedSum(p: PoolState): nat {
    ServedTo(p.nodes, |p.nodes|)
  }

  ghost predicate Distinct(a: seq<nat>) {
    forall i, j :: 0 <= i < j < |a| ==> a[i] != a[j]
  }

  /** What a strategy may pick: a candidate, and of positive weight under the
      weighted strategy. */
  ghost predicate Eligible(p: PoolState, now: u64, tried: seq<nat>, i: nat) {
    Candidate(p.nodes, now, tried, i) && (p.strategy.Weighted? ==> p.nodes[i].weight > 0)
  }

  /** Nobody is left to try. */
  ghost predicate Exhausted(p: PoolState, now: u64, tried: seq<nat>) {
    forall i: nat :: !Eligible(p, now, tried, i)
  }

  /** The same backend, apart from the weighted strategy's bookkeeping. */
  ghost predicate Untouched(n: Node, n': Node) {
    n' == n.(currentWeight := n'.currentWeight)
  }

  /** The backend once one call to it has been recorded: what it answered decides
      whether a success with its latency or a failure. */
  function Recorded(n: Node, now: u64, ewma: Option<EwmaConfig>, health: HealthConfig, reply: Reply): Node {
    match reply
    case Answer(_, latencyMs) => n.SucceededIn(now, ewma, latencyMs)
    case Fault(_) => n.Failed(now, health)
  }

  /** Backend `i` of the pool, relative to its state `p` right after the poll: its
      reply recorded if it was tried, and untouched if not. */
  ghost predicate NodeTracks(p: PoolState, q: PoolState, now: u64, upstream: nat -> Reply, tried: seq<nat>, i: nat)
    requires i < |p.nodes| == |q.nodes|
  {
    Untouched(if i in tried then Recorded(p.nodes[i], now, p.ewma, p.health, upstream(i)) else p.nodes[i], q.nodes[i])
  }

  /** Where the pool stands, relative to its state `p` right after the poll. */
  ghost predicate PoolTracks(p: PoolState, q: PoolState, now: u64, upstream: nat -> Reply, tried: seq<nat>) {
    && Inv(q) && |q.nodes| == |p.nodes|
    && q.strategy == p.strategy && q.ewma == p.ewma && q.health == p.health
    && forall i :: 0 <= i < |p.nodes| ==> NodeTracks(p, q, now, upstream, tried, i)
  }

  /** The attempt says what the backend answered. */
  predicate Truthful(a: Attempt, upstream: nat -> Reply) {
    a.ok == upstream(a.backend).Answer? && a.latencyMs == upstream(a.backend).latencyMs
  }

  /** What the loop keeps: the attempts so far are the tried backends, each one a
      different backend that was available right after the poll, all failed. */
  ghost predicate AttemptsTrack(p: PoolState, now: u64, upstream: nat -> Reply, f: Flight) {
    && |f.attempts| == |f.tried| && Distinct(f.tried)
    && (forall i :: 0 <= i < |f.tried| ==>
          && Eligible(p, now, [], f.tried[i])
          && f.attempts[i].backend == f.tried[i]
          && f.attempts[i].backendName == p.nodes[f.tried[i]].name
          && Truthful(f.attempts[i], upstream)
          && !f.attempts[i].ok && f.attempts[i].isRetry == (i > 0))
    && f.selected == (if f.tried == [] then None else Some(f.tried[0]))
  }

  ghost predicate CountersTrack(p: PoolState, b: Budget, f: Flight) {
    && f.retries == |f.tried|
    && f.failovers == (if f.tried == [] then 0 else |f.tried| - 1)
    && f.budget.cfg == b.cfg
    && f.budget.granted == b.granted + f.retries
    && f.budget.tokensMilli == b.tokensMilli - f.retries * b.cfg.retryCostMilli
    && (b.tokensMilli >= 0 ==> f.budget.tokensMilli >= 0)
    && ServedSum(f.pool) == ServedSum(p) + |f.attempts|
  }

  ghost predicate Serving(p: PoolState, b: Budget, now: u64, upstream: nat -> Reply, f: Flight) {
    && PoolTracks(p, f.pool, now, upstream, f.tried)
    && AttemptsTrack(p, now, upstream, f) && CountersTrack(p, b, f)
  }

  lemma {:induction false} ServedAgrees(nodes: seq<Node>, nodes': seq<Node>, n: nat)
    requires n <= |nodes| == |nodes'|
    requires forall i :: 0 <= i < n ==> nodes[i].served == nodes'[i].served
    ensures ServedTo(nodes, n) == ServedTo(nodes', n)
  {
    if n > 0 {
      ServedAgrees(nodes, nodes', n - 1);
    }
  }

  lemma {:induction false} ServedOneMore(nodes: seq<Node>, nodes': seq<Node>, k: nat, n: nat)
    requires n <= |nodes| == |nodes'| && k < |nodes|
    requires nodes'[k].served == nodes[k].served + 1
    requires forall i :: 0 <= i < |nodes| && i != k ==> nodes[i].served == nodes'[i].served
    ensures ServedTo(nodes', n) == ServedTo(nodes, n) + (if k < n then 1 else 0)
  {
    if n > 0 {
      ServedOneMore(nodes, nodes', k, n - 1);
    }
  }

  // ---- one turn --------------------------------------------------------------

  lemma {:induction false} RecordedKeeps(
      n: Node, now: u64, ewma: Option<EwmaConfig>, health: HealthConfig, reply: Reply)
    ensures var n' := Recorded(n, now, ewma, health, reply);
            n'.inFlight == n.inFlight && n'.weight == n.weight && n'.name == n.name && n'.served == n.served + 1
  {
    hide Circuit.Succeeded, Circuit.Failed, EwmaConfig.Fold;
  }

  /** The bookkeeping of the weighted strategy is the one thing a recorded outcome
      does not depend on. */
  lemma {:induction false} TrackedNode(
      p: PoolState, q: PoolState, now: u64, upstream: nat -> Reply, tried: seq<nat>, i: nat)
    requires PoolTracks(p, q, now, upstream, tried) && i < |p.nodes|
    ensures q.nodes[i].inFlight == p.nodes[i].inFlight && q.nodes[i].weight == p.nodes[i].weight
    ensures q.nodes[i].name == p.nodes[i].name
    ensures q.nodes[i].served == p.nodes[i].served + (if i in tried then 1 else 0)
    ensures i !in tried ==> Untouched(p.nodes[i], q.nodes[i])
    ensures Candidate(q.nodes, now, tried, i) <==> Candidate(p.nodes, now, tried, i)
  {
    hide Inv, Recorded, Circuit.Admits;
    RecordedKeeps(p.nodes[i], now, p.ewma, p.health, upstream(i));
    assert NodeTracks(p, q, now, upstream, tried, i);
  }

  lemma {:induction false} SelectTracks(
      p: PoolState, q: PoolState, tried: seq<nat>, now: u64, key: Option<Mix64.Bytes>, upstream: nat -> Reply)
    requires PoolTracks(p, q, now, upstream, tried)
    ensures var (q', r) := Select(q, now, key, tried);
            && PoolTracks(p, q', now, upstream, tried) && ServedSum(q') == ServedSum(q)
            && (r.Some? ==> Eligible(p, now, tried, r.value))
            && (r.None? <==> Exhausted(p, now, tried))
  {
    hide Inv, Select, Recorded, Node.IsAvailable;
    SelectKeepsInv(q, now, key, tried);
    SelectionSoundAndComplete(q, now, key, tried);
    Ops.SelectKeepsNodes(q, now, key, tried);
    var q' := Select(q, now, key, tried).0;
    ServedAgrees(q.nodes, q'.nodes, |q.nodes|);
    forall i | 0 <= i < |p.nodes| ensures NodeTracks(p, q', now, upstream, tried, i) {
      assert NodeTracks(p, q, now, upstream, tried, i);
    }
    forall i: nat
      ensures Eligible(p, now, tried, i)
              <==> Candidate(q.nodes, now, tried, i) && (q.strategy.Weighted? ==> q.nodes[i].weight > 0)
    {
      EligibleTracks(p, q, now, upstream, tried, i);
    }
  }

  lemma {:induction false} EligibleTracks(
      p: PoolState, q: PoolState, now: u64, upstream: nat -> Reply, tried: seq<nat>, i: nat)
    requires PoolTracks(p, q, now, upstream, tried)
    ensures Eligible(p, now, tried, i)
            <==> Candidate(q.nodes, now, tried, i) && (q.strategy.Weighted? ==> q.nodes[i].weight > 0)
  {
    hide Inv, NodeTracks;
    if i < |p.nodes| {
      TrackedNode(p, q, now, upstream, tried, i);
    }
  }

  lemma {:induction false} CallRecords(p: PoolState, now: u64, idx: nat, reply: Reply)
    requires idx < |p.nodes|
    ensures Called(p, now, idx, reply)
            == WithNode(p, idx, Recorded(p.nodes[idx], now, p.ewma, p.health, reply))
  {
    hide Node.SucceededIn, Node.Failed;
    var a := Ops.Apply(p, Ops.Begin(now, idx));
    var b := Ops.Apply(a, Ops.End(now, idx));
    assert a == WithNode(p, idx, p.nodes[idx].Began());
    assert b.nodes[idx] == p.nodes[idx];
    assert b == p;
  }

  lemma {:induction false} CallKeepsInv(p: PoolState, now: u64, idx: nat, reply: Reply)
    requires Inv(p)
    ensures Inv(Called(p, now, idx, reply))
  {
    hide Inv, Ops.Apply;
    var a := Ops.Apply(p, Ops.Begin(now, idx));
    var b := Ops.Apply(a, Ops.End(now, idx));
    ApplyKeepsInv(p, Ops.Begin(now, idx));
    ApplyKeepsInv(a, Ops.End(now, idx));
    match reply
    case Answer(_, latencyMs) => ApplyKeepsInv(b, Ops.TimedSuccess(now, idx, latencyMs));
    case Fault(_) => ApplyKeepsInv(b, Ops.Failure(now, idx));
  }

  lemma {:induction false} CallTracks(
      p: PoolState, q: PoolState, tried: seq<nat>, now: u64, idx: nat, upstream: nat -> Reply)
    requires PoolTracks(p, q, now, upstream, tried) && idx < |p.nodes| && idx !in tried
    ensures PoolTracks(p, Called(q, now, idx, upstream(idx)), now, upstream, tried + [idx])
    ensures ServedSum(Called(q, now, idx, upstream(idx))) == ServedSum(q) + 1
  {
    hide Inv, Called, Recorded;
    CallRecords(q, now, idx, upstream(idx));
    CallKeepsInv(q, now, idx, upstream(idx));
    RecordedKeeps(q.nodes[idx], now, q.ewma, q.health, upstream(idx));
    var q' := Called(q, now, idx, upstream(idx));
    ServedOneMore(q.nodes, q'.nodes, idx, |q.nodes|);
    forall i | 0 <= i < |p.nodes| ensures NodeTracks(p, q', now, upstream, tried + [idx], i) {
      assert NodeTracks(p, q, now, upstream, tried, i);
      if i == idx {
        RecordedIgnoresWeight(p.nodes[i], q.nodes[i], now, p.ewma, p.health, upstream(i));
      }
    }
  }

  lemma {:induction false} RecordedIgnoresWeight(
      n: Node, n': Node, now: u64, ewma: Option<EwmaConfig>, health: HealthConfig, reply: Reply)
    requires Untouched(n, n')
    ensures Untouched(Recorded(n, now, ewma, health, reply), Recorded(n', now, ewma, health, reply))
  {
    hide Circuit.Succeeded, Circuit.Failed, EwmaConfig.Fold;
  }

  // ---- landing ---------------------------------------------------------------

  ghost function Targets(attempts: seq<Attempt>): seq<nat> {
    seq(|attempts|, i requires 0 <= i < |attempts| => attempts[i].backend)
  }

  /** Every attempt is on a different backend that was available right after the
      poll, and says what that backend answered; only the last can have been
      answered. */
  ghost predicate AttemptsLawful(p: PoolState, now: u64, upstream: nat -> Reply, attempts: seq<Attempt>) {
    && Distinct(Targets(attempts))
    && (forall i :: 0 <= i < |attempts| ==>
          && Eligible(p, now, [], attempts[i].backend)
          && attempts[i].backendName == p.nodes[attempts[i].backend].name
          && Truthful(attempts[i], upstream)
          && attempts[i].isRetry == (i > 0))
    && (forall i :: 0 <= i < |attempts| - 1 ==> !attempts[i].ok)
  }

  predicate AnsweredWith(reply: Reply, status: nat) {
    reply.Answer? && reply.status == status
  }

  /** Why the loop stopped. */
  ghost predicate EndingJustified(
      p: PoolState, now: u64, upstream: nat -> Reply, maxRetries: nat, f: Flight, e: Ending)
  {
    var n := |f.attempts|;
    && n <= maxRetries + 1
    && (e.Answered? <==> n > 0 && f.attempts[n - 1].ok)
    && (e.Answered? ==> AnsweredWith(upstream(f.attempts[n - 1].backend), e.status))
    && (e.NoBackend? ==> Exhausted(p, now, Targets(f.attempts)))
    && (e.GaveUp? ==> n > 0 && (n == maxRetries + 1 || !Affords(f.budget)))
    && (!e.Answered? ==> |f.tried| == n)
    && f.selected == (if n == 0 then None else Some(f.attempts[0].backend))
  }

  /** What the request did to the shared counters. */
  ghost predicate CountersSettled(p: PoolState, b: Budget, f: Flight, e: Ending) {
    var n := |f.attempts|;
    && ServedSum(f.pool) == ServedSum(p) + n
    && f.failovers == Max(0, n - 1)
    && f.retries == f.failovers + (if e.NoBackend? && n > 0 then 1 else 0)
    && f.budget.cfg == b.cfg
    && f.budget.granted == b.granted + f.retries
    && f.budget.tokensMilli == b.tokensMilli - f.retries * b.cfg.retryCostMilli
    && (b.tokensMilli >= 0 ==> f.budget.tokensMilli >= 0)
  }

  ghost predicate Landed(
      p: PoolState, b: Budget, now: u64, upstream: nat -> Reply, maxRetries: nat, f: Flight, e: Ending)
  {
    && PoolTracks(p, f.pool, now, upstream, Targets(f.attempts))
    && AttemptsLawful(p, now, upstream, f.attempts)
    && EndingJustified(p, now, upstream, maxRetries, f, e)
    && CountersSettled(p, b, f, e)
  }

  lemma {:induction false} EligibleWithoutExclusion(p: PoolState, now: u64, tried: seq<nat>, i: nat)
    requires Eligible(p, now, tried, i)
    ensures Eligible(p, now, [], i) && i !in tried
  {
  }

  /** The attempt just made extends a lawful list. */
  lemma {:induction false} TriedLawful(
      p: PoolState, now: u64, upstream: nat -> Reply, f: Flight, pool: PoolState, idx: nat)
    requires AttemptsTrack(p, now, upstream, f) && Eligible(p, now, f.tried, idx)
    requires NameOf(pool, idx) == p.nodes[idx].name
    ensures var f' := Tried(f, pool, now, idx, upstream(idx));
            && AttemptsLawful(p, now, upstream, f'.attempts)
            && Targets(f'.attempts) == f.tried + [idx]
            && f'.selected == Some(f'.attempts[0].backend)
            && (upstream(idx).Fault? ==> AttemptsTrack(p, now, upstream, f'))
  {
    hide Called;
    EligibleWithoutExclusion(p, now, f.tried, idx);
    assert f.tried == [] ==> f.attempts == [];
  }

  lemma {:induction false} NoBackendLands(
      p: PoolState, b: Budget, now: u64, upstream: nat -> Reply, maxRetries: nat, f: Flight, pool: PoolState)
    requires Serving(p, b, now, upstream, f) && |f.tried| <= maxRetries
    requires PoolTracks(p, pool, now, upstream, f.tried) && ServedSum(pool) == ServedSum(f.pool)
    requires Exhausted(p, now, f.tried)
    ensures Landed(p, b, now, upstream, maxRetries, f.(pool := pool), NoBackend)
  {
    hide PoolTracks, Exhausted, ServedSum;
    assert Targets(f.attempts) == f.tried;
  }

  lemma {:induction false} TurnLands(
      p: PoolState, b: Budget, now: u64, key: Option<Mix64.Bytes>, upstream: nat -> Reply, maxRetries: nat, f: Flight)
    requires Serving(p, b, now, upstream, f) && |f.tried| <= maxRetries
    ensures var (f', ending) := Turn(f, now, key, upstream, maxRetries);
            match ending
            case None => Serving(p, b, now, upstream, f') && |f'.tried| <= maxRetries
            case Some(e) => Landed(p, b, now, upstream, maxRetries, f', e)
  {
    hide Select, Called, PoolTracks, Exhausted, ServedSum, AttemptsTrack, AttemptsLawful;
    SelectTracks(p, f.pool, f.tried, now, key, upstream);
    var (pool, choice) := Select(f.pool, now, key, f.tried);
    match choice
    case None => NoBackendLands(p, b, now, upstream, maxRetries, f, pool);
    case Some(idx) => CallLands(p, b, now, upstream, maxRetries, f, pool, idx);
  }

  /** What a call to `idx` makes of the flight `f`, whatever the reply and before the
      decision about a retry. */
  ghost predicate Booked(
      p: PoolState, now: u64, upstream: nat -> Reply, f: Flight, f': Flight, idx: nat)
  {
    && PoolTracks(p, f'.pool, now, upstream, Targets(f'.attempts))
    && AttemptsLawful(p, now, upstream, f'.attempts)
    && Targets(f'.attempts) == f.tried + [idx]
    && |f'.attempts| == |f.tried| + 1
    && f'.attempts[|f.tried|].ok == upstream(idx).Answer? && f'.attempts[|f.tried|].backend == idx
    && f'.selected == Some(f'.attempts[0].backend)
    && ServedSum(f'.pool) == ServedSum(p) + |f'.attempts|
    && f'.failovers == |f.tried| && f'.retries == |f.tried|
    && f'.budget == f.budget
    && f'.tried == (if upstream(idx).Answer? then f.tried else f.tried + [idx])
    && (upstream(idx).Fault? ==> AttemptsTrack(p, now, upstream, f'))
  }

  lemma {:induction false} CallBookkeeping(
      p: PoolState, b: Budget, now: u64, upstream: nat -> Reply, f: Flight, pool: PoolState, idx: nat)
    requires Serving(p, b, now, upstream, f)
    requires PoolTracks(p, pool, now, upstream, f.tried) && ServedSum(pool) == ServedSum(f.pool)
    requires Eligible(p, now, f.tried, idx)
    ensures Booked(p, now, upstream, f, Tried(f, pool, now, idx, upstream(idx)), idx)
  {
    NameTracked(p, pool, now, upstream, f.tried, idx);
    hide Called, PoolTracks, ServedSum, AttemptsLawful, Eligible, NameOf;
    TriedLawful(p, now, upstream, f, pool, idx);
    CallTracks(p, pool, f.tried, now, idx, upstream);
    assert f.tried == [] <==> |f.tried| == 0;
  }

  lemma {:induction false} AnswerLands(
      p: PoolState, b: Budget, now: u64, upstream: nat -> Reply, maxRetries: nat, f: Flight, f': Flight, idx: nat)
    requires CountersTrack(p, b, f) && |f.tried| <= maxRetries
    requires Booked(p, now, upstream, f, f', idx) && upstream(idx).Answer?
    ensures Landed(p, b, now, upstream, maxRetries, f', Answered(upstream(idx).status))
  {
    hide PoolTracks, Exhausted, ServedSum, AttemptsLawful, AttemptsTrack, Targets;
  }

  /** The loop gives up after a failure, with or without having asked for a retry. */
  lemma {:induction false} FaultLands(
      p: PoolState, b: Budget, now: u64, upstream: nat -> Reply, maxRetries: nat, f: Flight, f': Flight, idx: nat,
      budget: Budget)
    requires CountersTrack(p, b, f) && |f.tried| <= maxRetries
    requires Booked(p, now, upstream, f, f', idx) && upstream(idx).Fault?
    requires budget.cfg == f.budget.cfg && budget.granted == f.budget.granted
    requires budget.tokensMilli == f.budget.tokensMilli
    requires |f'.tried| > maxRetries || !Affords(budget)
    ensures Landed(p, b, now, upstream, maxRetries, f'.(budget := budget), GaveUp)
  {
    hide PoolTracks, Exhausted, ServedSum, AttemptsLawful, AttemptsTrack, Targets;
  }

  lemma {:induction false} FaultServes(
      p: PoolState, b: Budget, now: u64, upstream: nat -> Reply, f: Flight, f': Flight, idx: nat)
    requires CountersTrack(p, b, f) && Affords(f.budget)
    requires Booked(p, now, upstream, f, f', idx) && upstream(idx).Fault?
    ensures Serving(p, b, now, upstream, f'.(budget := Retried(f'.budget), retries := f'.retries + 1))
  {
    hide PoolTracks, Exhausted, ServedSum, AttemptsLawful, AttemptsTrack, Targets;
    RetriedTracks(p, now, upstream, f');
    MulDistributes(f.retries, 1, b.cfg.retryCostMilli);
  }

  lemma {:induction false} CallLands(
      p: PoolState, b: Budget, now: u64, upstream: nat -> Reply, maxRetries: nat, f: Flight, pool: PoolState, idx: nat)
    requires Serving(p, b, now, upstream, f) && |f.tried| <= maxRetries
    requires PoolTracks(p, pool, now, upstream, f.tried) && ServedSum(pool) == ServedSum(f.pool)
    requires Eligible(p, now, f.tried, idx)
    ensures var f' := Tried(f, pool, now, idx, upstream(idx));
            match upstream(idx)
            case Answer(status, _) => Landed(p, b, now, upstream, maxRetries, f', Answered(status))
            case Fault(_) =>
              if |f'.tried| > maxRetries then Landed(p, b, now, upstream, maxRetries, f', GaveUp)
              else if !Affords(f'.budget) then
                Landed(p, b, now, upstream, maxRetries, f'.(budget := Retried(f'.budget)), GaveUp)
              else
                Serving(p, b, now, upstream, f'.(budget := Retried(f'.budget), retries := f'.retries + 1))
  {
    hide Called, NameOf, PoolTracks, AttemptsTrack, CountersTrack, ServedSum, Eligible, Landed, Booked, AttemptsLawful,
         Targets;
    CallBookkeeping(p, b, now, upstream, f, pool, idx);
    var f' := Tried(f, pool, now, idx, upstream(idx));
    if upstream(idx).Answer? {
      AnswerLands(p, b, now, upstream, maxRetries, f, f', idx);
    } else if |f'.tried| > maxRetries {
      FaultLands(p, b, now, upstream, maxRetries, f, f', idx, f'.budget);
    } else if !Affords(f'.budget) {
      FaultLands(p, b, now, upstream, maxRetries, f, f', idx, Retried(f'.budget));
    } else {
      FaultServes(p, b, now, upstream, f, f', idx);
    }
  }

  /** Settling a retry touches neither the pool nor the attempts. */
  lemma {:induction false} RetriedTracks(p: PoolState, now: u64, upstream: nat -> Reply, f: Flight)
    requires AttemptsTrack(p, now, upstream, f)
    ensures AttemptsTrack(p, now, upstream, f.(budget := Retried(f.budget), retries := f.retries + 1))
  {
  }

  lemma {:induction false} NameTracked(
      p: PoolState, pool: PoolState, now: u64, upstream: nat -> Reply, tried: seq<nat>, idx: nat)
    requires PoolTracks(p, pool, now, upstream, tried) && Eligible(p, now, tried, idx)
    ensures idx < |p.nodes| && NameOf(pool, idx) == p.nodes[idx].name
  {
    hide Inv, PoolTracks;
    TrackedNode(p, pool, now, upstream, tried, idx);
  }

  lemma {:induction false} TurnKeepsInv(
      f: Flight, now: u64, key: Option<Mix64.Bytes>, upstream: nat -> Reply, maxRetries: nat)
    requires Inv(f.pool)
    ensures Inv(Turn(f, now, key, upstream, maxRetries).0.pool)
  {
    hide Inv, Select, Called;
    SelectKeepsInv(f.pool, now, key, f.tried);
    var (pool, choice) := Select(f.pool, now, key, f.tried);
    if choice.Some? {
      CallKeepsInv(pool, now, choice.value, upstream(choice.value));
    }
  }

  lemma {:induction false} LandingLands(
      p: PoolState, b: Budget, now: u64, key: Option<Mix64.Bytes>, upstream: nat -> Reply, maxRetries: nat, f: Flight)
    requires Serving(p, b, now, upstream, f) && |f.tried| <= maxRetries
    ensures var (f', e) := Landing(f, now, key, upstream, maxRetries); Landed(p, b, now, upstream, maxRetries, f', e)
    decreases maxRetries - |f.tried|
  {
    hide Turn, Serving, Landed;
    TurnLands(p, b, now, key, upstream, maxRetries, f);
    TurnAdvances(f, now, key, upstream, maxRetries);
    var (f', ending) := Turn(f, now, key, upstream, maxRetries);
    if ending.None? {
      LandingLands(p, b, now, key, upstream, maxRetries, f');
    }
  }

  // ---- the request -----------------------------------------------------------

  lemma {:induction false} TakeoffServes(p: PoolState, b: Budget, now: u64, upstream: nat -> Reply)
    requires Inv(p)
    ensures Serving(p, b, now, upstream, Takeoff(p, b))
  {
    hide Inv;
    assert forall i :: 0 <= i < |p.nodes| ==> NodeTracks(p, p, now, upstream, [], i);
  }

  /** Every routed request lands lawfully, in every reachable state of its pool
      and whatever the upstreams answer. */
  lemma {:induction false} RequestLands(
      s: ProxyState, now: u64, service: Name, key: Option<Mix64.Bytes>, upstream: nat -> Reply)
    requires service in s.pools && Inv(s.pools[service])
    ensures var p := Polled(s.pools[service], now);
            var (f, e) := Flown(s, now, service, key, upstream);
            Landed(p, Deposited(s.budget), now, upstream, s.budget.cfg.maxRetriesPerRequest, f, e)
  {
    hide Inv, Landed, Serving, Landing;
    var p := Polled(s.pools[service], now);
    ApplyKeepsInv(s.pools[service], Ops.Poll(now));
    TakeoffServes(p, Deposited(s.budget), now, upstream);
    LandingLands(p, Deposited(s.budget), now, key, upstream, s.budget.cfg.maxRetriesPerRequest,
                 Takeoff(p, Deposited(s.budget)));
  }

  lemma {:induction false} DistinctBounded(a: seq<nat>, n: nat)
    requires Distinct(a) && forall i :: 0 <= i < |a| ==> a[i] < n
    ensures |a| <= n
    decreases n
  {
    if a == [] {
    } else {
      assert a[0] < n;
      if k :| 0 <= k < |a| && a[k] == n - 1 {
        DistinctBounded(a[..k] + a[k + 1..], n - 1);
      } else {
        DistinctBounded(a, n - 1);
      }
    }
  }

  /** Termination measure and bounds: a request makes at most `max_retries + 1`
      attempts and never more than there are backends; they are on pairwise
      distinct backends, each available in the state right after the poll, and
      all but the last failed. */
  lemma {:induction false} AttemptsBounded(
      s: ProxyState, now: u64, service: Name, key: Option<Mix64.Bytes>, upstream: nat -> Reply)
    requires service in s.pools && Inv(s.pools[service])
    ensures var p, r := Polled(s.pools[service], now), Handled(s, now, Some(service), key, upstream).1;
            && |r.attempts| <= s.budget.cfg.maxRetriesPerRequest + 1
            && |r.attempts| <= |p.nodes|
            && AttemptsLawful(p, now, upstream, r.attempts)
            && r.selected == (if r.attempts == [] then None else Some(r.attempts[0].backend))
  {
    hide Inv, Flown, PoolTracks, CountersSettled;
    RequestLands(s, now, service, key, upstream);
    var p, f := Polled(s.pools[service], now), Flown(s, now, service, key, upstream).0;
    DistinctBounded(Targets(f.attempts), |p.nodes|);
  }

  /** Exact classification of a routed request. `Ok` exactly when an attempt, the
      last one, was answered, and then with the status that backend answered.
      `NoHealthyUpstream` exactly when nothing was attempted, which happens exactly
      when no backend could be selected right after the poll. Otherwise
      `AllAttemptsFailed` with the number of attempts, none of which was answered;
      and then the retries ran out, the budget refused, or nobody was left. */
  lemma {:induction false} ResponseClassified(
      s: ProxyState, now: u64, service: Name, key: Option<Mix64.Bytes>, upstream: nat -> Reply)
    requires service in s.pools && Inv(s.pools[service])
    ensures var p, (s', r) := Polled(s.pools[service], now), Handled(s, now, Some(service), key, upstream);
            var n := |r.attempts|;
            && (r.response.Ok? <==> n > 0 && r.attempts[n - 1].ok)
            && (r.response.Ok? ==> AnsweredWith(upstream(r.attempts[n - 1].backend), r.response.status))
            && (r.response == Err(NoHealthyUpstream) <==> n == 0)
            && (n == 0 <==> Exhausted(p, now, []))
            && (r.response.Err? && n > 0 ==> r.response == Err(AllAttemptsFailed(n)))
            && (r.response.Err? && n > 0 ==>
                  (n == s.budget.cfg.maxRetriesPerRequest + 1 || !Affords(s'.budget)
                   || Exhausted(p, now, Targets(r.attempts))))
  {
    hide Inv, Flown, PoolTracks, CountersSettled;
    RequestLands(s, now, service, key, upstream);
    var p, f := Polled(s.pools[service], now), Flown(s, now, service, key, upstream).0;
    assert Targets([]) == [];
    if |f.attempts| > 0 {
      assert Eligible(p, now, [], f.attempts[0].backend);
    }
  }

  /** Every attempt is recorded exactly once, with the backend it was made on and as
      that backend answered: an attempted backend is its state right after the poll
      with that reply recorded, and every other backend is as the poll left it, up
      to the current weight. A request gives back every call it began, and touches
      no other pool. */
  lemma {:induction false} AttemptsRecorded(
      s: ProxyState, now: u64, service: Name, key: Option<Mix64.Bytes>, upstream: nat -> Reply)
    requires service in s.pools && Inv(s.pools[service])
    ensures var (s', r) := Handled(s, now, Some(service), key, upstream);
            var before, polled := s.pools[service].nodes, Polled(s.pools[service], now);
            && s'.pools.Keys == s.pools.Keys
            && (forall other :: other in s.pools && other != service ==> s'.pools[other] == s.pools[other])
            && Inv(s'.pools[service])
            && ServedSum(s'.pools[service]) == ServedSum(s.pools[service]) + |r.attempts|
            && |s'.pools[service].nodes| == |before| == |polled.nodes|
            && (forall i :: 0 <= i < |before|
                  ==> NodeTracks(polled, s'.pools[service], now, upstream, Targets(r.attempts), i))
            && (forall i :: 0 <= i < |before| ==> s'.pools[service].nodes[i].inFlight == before[i].inFlight)
            && (forall i :: 0 <= i < |before|
                  ==> s'.pools[service].nodes[i].served
                      == before[i].served + (if i in Targets(r.attempts) then 1 else 0))
  {
    hide Inv, Flown, AttemptsLawful, EndingJustified, ServedSum, NodeTracks, Targets;
    RequestLands(s, now, service, key, upstream);
    PollKeepsCalls(s.pools[service], now);
    var (s', r) := Handled(s, now, Some(service), key, upstream);
    var polled := Polled(s.pools[service], now);
    forall i | 0 <= i < |polled.nodes|
      ensures s'.pools[service].nodes[i].inFlight == polled.nodes[i].inFlight
      ensures s'.pools[service].nodes[i].served
              == polled.nodes[i].served + (if i in Targets(r.attempts) then 1 else 0)
    {
      TrackedNode(polled, s'.pools[service], now, upstream, Targets(r.attempts), i);
    }
  }

  lemma {:induction false} PollKeepsCalls(p: PoolState, now: u64)
    ensures |Polled(p, now).nodes| == |p.nodes| && ServedSum(Polled(p, now)) == ServedSum(p)
    ensures forall i :: 0 <= i < |p.nodes| ==> Polled(p, now).nodes[i].inFlight == p.nodes[i].inFlight
    ensures forall i :: 0 <= i < |p.nodes| ==> Polled(p, now).nodes[i].served == p.nodes[i].served
  {
    hide Line, Node.Polled;
    forall i | 0 <= i < |p.nodes|
      ensures Polled(p, now).nodes[i].inFlight == p.nodes[i].inFlight
      ensures Polled(p, now).nodes[i].served == p.nodes[i].served
    {
      PollKeeps(p.nodes[i], now, p.ewma, Line(p));
    }
    ServedAgrees(p.nodes, Polled(p, now).nodes, |p.nodes|);
  }

  /** The request found nobody to spend its last granted retry on. */
  ghost predicate Stranded(s: ProxyState, now: u64, service: Name, key: Option<Mix64.Bytes>, upstream: nat -> Reply)
    requires service in s.pools
  {
    var (f, e) := Flown(s, now, service, key, upstream);
    e.NoBackend? && f.attempts != []
  }

  /** The shared counters of a routed request: every retry is a granted token;
      every attempt but the first is a failover; a retry without a failover is a
      stranded one; and the tokens pay for exactly the retries. */
  lemma {:induction false} CountersExact(
      s: ProxyState, now: u64, service: Name, key: Option<Mix64.Bytes>, upstream: nat -> Reply)
    requires service in s.pools && Inv(s.pools[service])
    ensures var (s', r) := Handled(s, now, Some(service), key, upstream);
            var retries := s'.totalRetries - s.totalRetries;
            && s'.totalRequests == s.totalRequests + 1
            && retries >= 0 && s'.budget.granted == s.budget.granted + retries
            && s'.totalFailovers == s.totalFailovers + Max(0, |r.attempts| - 1)
            && retries == Max(0, |r.attempts| - 1) + (if Stranded(s, now, service, key, upstream) then 1 else 0)
            && s'.budget.cfg == s.budget.cfg
            && s'.budget.tokensMilli == Deposited(s.budget).tokensMilli - retries * s.budget.cfg.retryCostMilli
            && (Deposited(s.budget).tokensMilli >= 0 ==> s'.budget.tokensMilli >= 0)
  {
    hide Inv, Flown, AttemptsLawful, PoolTracks, ServedSum;
    RequestLands(s, now, service, key, upstream);
  }

  /** What it takes to fail a request: all retries it may have are used, or the tokens
      it found, its own deposit included, do not pay for one more, or no backend is
      left to try. So a request is retried as long as none of this holds. */
  lemma {:induction false} FailsOnlyWhen(
      s: ProxyState, now: u64, service: Name, key: Option<Mix64.Bytes>, upstream: nat -> Reply)
    requires service in s.pools && Inv(s.pools[service])
    ensures var p, r := Polled(s.pools[service], now), Handled(s, now, Some(service), key, upstream).1;
            var n := |r.attempts|;
            r.response.Err? && n > 0 ==>
              || n == s.budget.cfg.maxRetriesPerRequest + 1
              || Deposited(s.budget).tokensMilli < n * s.budget.cfg.retryCostMilli
              || Exhausted(p, now, Targets(r.attempts))
  {
    hide Inv, Flown, AttemptsLawful, PoolTracks, ServedSum, Exhausted, Targets;
    RequestLands(s, now, service, key, upstream);
    var f, cost := Flown(s, now, service, key, upstream).0, s.budget.cfg.retryCostMilli;
    PaidSoFar(Deposited(s.budget).tokensMilli, f.budget.tokensMilli, f.retries, |f.attempts|, cost);
  }

  lemma {:induction false} PaidSoFar(start: int, left: int, retries: int, n: int, cost: int)
    requires left == start - retries * cost
    ensures retries == n - 1 && left < cost ==> start < n * cost
  {
    MulDistributes(retries, 1, cost);
  }

  /** The first request of a new proxy gets its retry if it needs one: when its first
      attempt fails, retries are allowed, one costs no more than a full bucket, and
      another backend is eligible, there is a second attempt. */
  lemma {:induction false} FirstFailureRetried(
      s: ProxyState, now: u64, service: Name, key: Option<Mix64.Bytes>, upstream: nat -> Reply, other: nat)
    requires service in s.pools && Inv(s.pools[service]) && s.budget == NewBudget(s.budget.cfg)
    requires var cfg := s.budget.cfg;
             cfg.maxRetriesPerRequest > 0 && 0 <= cfg.depositMilli && cfg.retryCostMilli <= cfg.maxMilli
    requires var p, attempts := Polled(s.pools[service], now), Handled(s, now, Some(service), key, upstream).1.attempts;
             && attempts != [] && !attempts[0].ok
             && Eligible(p, now, [], other) && other != attempts[0].backend
    ensures var attempts := Handled(s, now, Some(service), key, upstream).1.attempts;
            |attempts| >= 2 && attempts[1].isRetry
  {
    hide Inv, Handled, Polled;
    var p, r := Polled(s.pools[service], now), Handled(s, now, Some(service), key, upstream).1;
    AttemptsBounded(s, now, service, key, upstream);
    ResponseClassified(s, now, service, key, upstream);
    FailsOnlyWhen(s, now, service, key, upstream);
    AnotherLeft(p, now, r.attempts, other);
    assert 1 * s.budget.cfg.retryCostMilli == s.budget.cfg.retryCostMilli;
  }

  lemma {:induction false} AnotherLeft(p: PoolState, now: u64, attempts: seq<Attempt>, other: nat)
    requires attempts != [] && Eligible(p, now, [], other) && other != attempts[0].backend
    ensures |attempts| == 1 ==> !Exhausted(p, now, Targets(attempts))
  {
    if |attempts| == 1 {
      assert Eligible(p, now, Targets(attempts), other);
    }
  }

  /** A request is answered with `NoRoute` exactly when no pool stands behind its
      route. It then makes no attempt and touches no pool, but it is counted and pays
      its deposit. */
  lemma {:induction false} UnroutedExactlyWhen(
      s: ProxyState, now: u64, route: Option<Name>, key: Option<Mix64.Bytes>, upstream: nat -> Reply)
    ensures var (s', r) := Handled(s, now, route, key, upstream);
            && (r.response == Err(NoRoute) <==> route.None? || route.value !in s.pools)
            && r.service == route && s'.totalRequests == s.totalRequests + 1
            && (r.response == Err(NoRoute) ==>
                  && r.attempts == [] && r.selected.None? && s'.pools == s.pools
                  && s'.totalRetries == s.totalRetries && s'.totalFailovers == s.totalFailovers
                  && s'.budget == Deposited(s.budget))
  {
    hide Flown;
  }
}
