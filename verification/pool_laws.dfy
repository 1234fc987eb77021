/** What holds in every reachable state of a pool: soundness and completeness of
    selection for all strategies, conservation and spread of the current
    weights, agreement of the cached ring, and the ejection line. */
module PoolLaws {
  import opened Prelude
  import opened Ewma
  import opened Breaker
  import opened Backends
  import opened HashRing
  import opened Sums
  import opened SmoothWrr
  import opened Pools
  import opened PoolRuns
  import Mix64

  // ---- the invariant -------------------------------------------------------

  ghost predicate RampsInRange(nodes: seq<Node>) {
    forall i :: 0 <= i < |nodes| ==> 1 <= nodes[i].rampPercent <= 100
  }

  /** The largest score a node can ever have. */
  function FullScores(nodes: seq<Node>): (s: seq<nat>)
    ensures |s| == |nodes|
  {
    seq(|nodes|, i requires 0 <= i < |nodes| => 100 * nodes[i].weight)
  }

  ghost function Cap(nodes: seq<Node>): nat {
    PartMonotone(Everyone(|nodes|), Everyone(|nodes|), FullScores(nodes));
    Sum(FullScores(nodes))
  }

  /** The current weights of the whole pool sum to zero and stay spread. */
  ghost predicate Balanced(nodes: seq<Node>) {
    Sum(Currents(nodes)) == 0 && Spread(Currents(nodes), Cap(nodes))
  }

  /** A nonempty signature says for which candidates the cached ring was built. */
  ghost predicate CacheAgrees(p: PoolState) {
    p.ringSignature != [] ==>
      Indices(p.ringSignature, |p.nodes|)
      && p.ring == Fresh(MembersOf(p.nodes, p.ringSignature), VNODES)
  }

  ghost predicate Inv(p: PoolState) {
    RampsInRange(p.nodes) && Balanced(p.nodes) && CacheAgrees(p) && p.rrCursor < CURSOR_MODULUS
  }

  // ---- how each event changes a pool --------------------------------------

  /** Same backend, same weight, same current weight, ramp still in range. */
  ghost predicate SteadyNode(n: Node, n': Node) {
    && n'.name == n.name && n'.weight == n.weight && n'.currentWeight == n.currentWeight
    && (1 <= n.rampPercent <= 100 ==> 1 <= n'.rampPercent <= 100)
  }

  ghost predicate Steady(nodes: seq<Node>, nodes': seq<Node>) {
    |nodes'| == |nodes| && forall i :: 0 <= i < |nodes| ==> SteadyNode(nodes[i], nodes'[i])
  }

  lemma {:induction false} SteadyKeepsInv(p: PoolState, p': PoolState)
    requires Inv(p) && Steady(p.nodes, p'.nodes)
    requires p'.ring == p.ring && p'.ringSignature == p.ringSignature && p'.rrCursor == p.rrCursor
    ensures Inv(p')
  {
    assert Currents(p'.nodes) == Currents(p.nodes);
    assert FullScores(p'.nodes) == FullScores(p.nodes);
    if p.ringSignature != [] {
      assert MembersOf(p'.nodes, p.ringSignature) == MembersOf(p.nodes, p.ringSignature);
    }
  }

  lemma {:induction false} PolledSteady(p: PoolState, now: u64)
    ensures Steady(p.nodes, Polled(p, now).nodes)
  {
    hide Line, Node.Polled;
    forall i | 0 <= i < |p.nodes| ensures SteadyNode(p.nodes[i], Polled(p, now).nodes[i]) {
      PollKeeps(p.nodes[i], now, p.ewma, Line(p));
    }
  }

  lemma {:induction false} ProbedNodeSteady(n: Node, now: u64, health: HealthConfig, live: bool)
    ensures SteadyNode(n, n.Probed(now, health, live))
  {
  }

  lemma {:induction false} OneNodeSteady(p: PoolState, i: nat, node: Node)
    requires i < |p.nodes| && SteadyNode(p.nodes[i], node)
    ensures Steady(p.nodes, WithNode(p, i, node).nodes)
  {
  }

  lemma {:induction false} OutcomeSteady(p: PoolState, e: Event)
    requires Legal(p, e) && (e.Begin? || e.End? || e.Success? || e.TimedSuccess? || e.Failure? || e.HealthChecks?)
    ensures Steady(p.nodes, Apply(p, e).nodes)
    ensures var p' := Apply(p, e);
            p'.ring == p.ring && p'.ringSignature == p.ringSignature && p'.rrCursor == p.rrCursor
  {
    hide Steady, Circuit.Succeeded, Circuit.Failed, EwmaConfig.Fold;
    match e
    case Begin(_, i) => OneNodeSteady(p, i, p.nodes[i].Began());
    case End(_, i) => OneNodeSteady(p, i, p.nodes[i].Ended());
    case Success(now, i) => OneNodeSteady(p, i, p.nodes[i].Succeeded(now));
    case TimedSuccess(now, i, latencyMs) => OneNodeSteady(p, i, p.nodes[i].SucceededIn(now, p.ewma, latencyMs));
    case Failure(now, i) => OneNodeSteady(p, i, p.nodes[i].Failed(now, p.health));
    case HealthChecks(now, dead) => ProbesSteady(p, now, dead);
  }

  lemma {:induction false} ProbesSteady(p: PoolState, now: u64, dead: set<nat>)
    ensures Steady(p.nodes, Probed(p, now, dead).nodes)
  {
    hide SteadyNode;
    forall i | 0 <= i < |p.nodes| ensures SteadyNode(p.nodes[i], Probed(p, now, dead).nodes[i]) {
      ProbedNodeSteady(p.nodes[i], now, p.health, i !in dead);
    }
  }

  lemma {:induction false} AddedKeepsInv(p: PoolState, node: Node)
    requires Inv(p) && node.currentWeight == 0 && 1 <= node.rampPercent <= 100
    ensures Inv(Added(p, node))
  {
    var nodes' := p.nodes + [node];
    assert Currents(nodes') == Currents(p.nodes) + [0];
    assert FullScores(nodes') == FullScores(p.nodes) + [100 * node.weight];
    SumAppend(Currents(p.nodes), 0);
    SumAppend(FullScores(p.nodes), 100 * node.weight);
    SpreadGrows(Currents(p.nodes), Cap(p.nodes), Cap(nodes'));
  }

  lemma {:induction false} ScoresWithinCap(nodes: seq<Node>, a: seq<nat>)
    requires RampsInRange(nodes)
    ensures Sum(Scores(nodes, a)) <= Cap(nodes)
  {
    var s, f := Scores(nodes, a), FullScores(nodes);
    forall i | 0 <= i < |nodes| ensures s[i] <= f[i] {
      MulMonotone(nodes[i].weight, nodes[i].rampPercent, 100);
    }
    var rest: seq<int> := seq(|nodes|, i requires 0 <= i < |nodes| => f[i] - s[i]);
    assert Plus(s, rest) == f;
    PartPlus(Everyone(|nodes|), s, rest);
    PartMonotone(Everyone(|nodes|), Everyone(|nodes|), rest);
  }

  lemma {:induction false} ReweighedParts(nodes: seq<Node>, x: seq<int>, a: seq<nat>)
    requires |x| == |nodes| && Indices(a, |nodes|)
    ensures Currents(Reweighed(nodes, x)) == x
    ensures FullScores(Reweighed(nodes, x)) == FullScores(nodes) && Cap(Reweighed(nodes, x)) == Cap(nodes)
    ensures MembersOf(Reweighed(nodes, x), a) == MembersOf(nodes, a)
    ensures RampsInRange(nodes) ==> RampsInRange(Reweighed(nodes, x))
  {
    assert FullScores(Reweighed(nodes, x)) == FullScores(nodes);
  }

  lemma {:induction false} WeightedKeepsInv(p: PoolState, a: seq<nat>)
    requires Inv(p)
    ensures Inv(WeightedPick(p, a).0)
  {
    hide Sum, Spread, Cap, Next, Chosen, Fresh, Reweighed, RampsInRange, Currents, Scores, MembersOf;
    var x, s := Currents(p.nodes), Scores(p.nodes, a);
    ScoresWithinCap(p.nodes, a);
    SpreadKept(x, s, Cap(p.nodes));
    SumConserved(x, s);
    ReweighedParts(p.nodes, Next(x, s), if p.ringSignature == [] then [] else p.ringSignature);
  }

  lemma {:induction false} SelectKeepsInv(p: PoolState, now: u64, key: Option<Mix64.Bytes>, exclude: seq<nat>)
    requires Inv(p)
    ensures Inv(Pools.Select(p, now, key, exclude).0)
  {
    hide WeightedPick, Balanced, RampsInRange, Fresh, Owner, LeastBusyTo, AvailableTo, Mix64.KeyPosition;
    AvailableIsCandidates(p.nodes, now, exclude, |p.nodes|);
    var a := Available(p, now, exclude);
    if a != [] && p.strategy.Weighted? {
      WeightedKeepsInv(p, a);
    }
  }

  lemma {:induction false} ApplyKeepsInv(p: PoolState, e: Event)
    requires Inv(p)
    ensures Inv(Apply(p, e))
  {
    hide Inv;
    if Legal(p, e) {
      match e
      case AddBackend(_, name, weight, health, breaker) => AddedKeepsInv(p, NewNode(name, weight, health, breaker));
      case Poll(now) => PolledSteady(p, now); SteadyKeepsInv(p, Polled(p, now));
      case Select(now, key, exclude) => SelectKeepsInv(p, now, key, exclude);
      case SetStrategy(_, strategy) => SteadyKeepsInv(p, p.(strategy := strategy));
      case EnableEwma(_, cfg) => SteadyKeepsInv(p, p.(ewma := Some(cfg)));
      case _ => OutcomeSteady(p, e); SteadyKeepsInv(p, Apply(p, e));
    }
  }

  /** Every reachable state of every pool satisfies the invariant: whatever the
      mix of added backends, polls, selections with any exclusions, outcomes,
      probes, strategy switches and latency configurations, the current weights
      sum to zero and stay spread, ramps stay in 1..100, and a cached ring is the
      ring its signature says. */
  lemma {:induction false} EveryReachableState(strategy: Strategy, health: HealthConfig, es: seq<Event>, k: nat)
    requires k <= |es|
    ensures Inv(After(NewPool(strategy, health), es, k))
  {
    hide Apply, Inv;
    if k == 0 {
      NewPoolInv(strategy, health);
    } else {
      EveryReachableState(strategy, health, es, k - 1);
      ApplyKeepsInv(After(NewPool(strategy, health), es, k - 1), es[k - 1]);
    }
  }

  lemma {:induction false} NewPoolInv(strategy: Strategy, health: HealthConfig)
    ensures Inv(NewPool(strategy, health))
  {
    var x := Currents([]);
    assert Sum(x) == 0;
    SpreadFromRest(x, Cap([]));
  }

  // ---- current weights -----------------------------------------------------

  /** In every reachable state each current weight is within `cap * (n - 1) / 2`
      of zero, where `cap` is one hundred times the sum of all weights. */
  lemma {:induction false} CurrentWeightsBounded(p: PoolState, i: nat)
    requires Inv(p) && i < |p.nodes|
    ensures -(Cap(p.nodes) * (|p.nodes| - 1)) <= 2 * p.nodes[i].currentWeight <= Cap(p.nodes) * (|p.nodes| - 1)
  {
    hide Sum, Spread, Cap;
    SpreadBoundsEach(Currents(p.nodes), Cap(p.nodes), i);
  }

  /** So with `cap * (n + 1)` below `2^64` no pick overflows `i64`, whatever came
      before: not the weights, not the weights with scores added, not the running
      total. */
  lemma {:induction false} PicksNeverOverflow(p: PoolState, a: seq<nat>, i: nat)
    requires Inv(p) && i < |p.nodes| && Cap(p.nodes) * (|p.nodes| + 1) <= 2 * I64_MAX
    ensures var x, s := Currents(p.nodes), Scores(p.nodes, a);
            && -I64_MAX <= x[i] <= I64_MAX
            && -I64_MAX <= Plus(x, s)[i] <= I64_MAX
            && -I64_MAX <= Next(x, s)[i] <= I64_MAX
            && forall k :: 0 <= k <= |s| ==> 0 <= PartTo(Everyone(|s|), s, k) <= I64_MAX
  {
    hide Sum, Spread, Cap, Plus, Next, PartTo, RampsInRange, CacheAgrees, Currents, Scores;
    ScoresWithinCap(p.nodes, a);
    PickFitsI64(Currents(p.nodes), Scores(p.nodes, a), Cap(p.nodes), i);
  }

  /** Up to 4096 backends of any 32-bit weight stay below that bound. */
  lemma {:induction false} FourThousandBackendsFit(nodes: seq<Node>)
    requires |nodes| <= 4096
    ensures Cap(nodes) * (|nodes| + 1) <= 2 * I64_MAX
  {
    var f := FullScores(nodes);
    PartAtMost(Everyone(|nodes|), f, 100 * U32_MAX);
    CountBounds(Everyone(|nodes|));
    MulMonotone(100 * U32_MAX, |nodes|, 4096);
    MulMonotone(Cap(nodes), |nodes| + 1, 4097);
  }

  // ---- selection -----------------------------------------------------------

  lemma {:induction false} LeastBusyIsFirstMinimum(nodes: seq<Node>, a: seq<nat>, n: nat)
    requires Indices(a, |nodes|) && 0 < n <= |a|
    ensures var k := LeastBusyTo(nodes, a, n);
            && (forall i :: 0 <= i < n ==> nodes[a[k]].inFlight <= nodes[a[i]].inFlight)
            && (forall i :: 0 <= i < k ==> nodes[a[k]].inFlight < nodes[a[i]].inFlight)
  {
    if n > 1 {
      LeastBusyIsFirstMinimum(nodes, a, n - 1);
    }
  }

  /** Some candidate has a positive weight. */
  ghost predicate HasCapacity(nodes: seq<Node>, now: u64, exclude: seq<nat>) {
    exists i: nat :: Candidate(nodes, now, exclude, i) && nodes[i].weight > 0
  }

  lemma {:induction false} ScorePositive(n: Node)
    requires 1 <= n.rampPercent
    ensures n.Score() > 0 <==> n.weight > 0
  {
    if n.weight > 0 {
      MulMonotone(n.weight, 1, n.rampPercent);
    }
  }

  lemma {:induction false} WeightedFindsCapacity(p: PoolState, now: u64, exclude: seq<nat>)
    requires Inv(p)
    ensures var a := Available(p, now, exclude);
            var r := Chosen(Currents(p.nodes), Scores(p.nodes, a));
            && (r.Some? ==> Candidate(p.nodes, now, exclude, r.value) && p.nodes[r.value].weight > 0)
            && (r.None? <==> !HasCapacity(p.nodes, now, exclude))
  {
    AvailableIsCandidates(p.nodes, now, exclude, |p.nodes|);
    var a := Available(p, now, exclude);
    var x, s := Currents(p.nodes), Scores(p.nodes, a);
    ChosenLeads(x, s);
    forall i | 0 <= i < |p.nodes|
      ensures s[i] > 0 <==> Candidate(p.nodes, now, exclude, i) && p.nodes[i].weight > 0
    {
      ScorePositive(p.nodes[i]);
      assert i in a <==> Candidate(p.nodes, now, exclude, i);
    }
    if HasCapacity(p.nodes, now, exclude) {
      var i: nat :| Candidate(p.nodes, now, exclude, i) && p.nodes[i].weight > 0;
      assert s[i] > 0;
    }
  }

  lemma {:induction false} HashOwnerIsCandidate(p: PoolState, a: seq<nat>, key: Mix64.Bytes)
    requires CacheAgrees(p) && a != [] && Indices(a, |p.nodes|)
    ensures var owner := Owner(Fresh(MembersOf(p.nodes, a), VNODES), Mix64.KeyPosition(key));
            && Owner(Recached(p, a).ring, Mix64.KeyPosition(key)) == owner
            && owner.Some? && owner.value in a
  {
    hide Mix64.KeyPosition;
    var members := MembersOf(p.nodes, a);
    EmptyExactlyWhen(members, VNODES);
    assert Recached(p, a).ring == Fresh(members, VNODES);
    var w := OwnerEntry(members, VNODES, Mix64.KeyPosition(key));
    assert members[w].id == a[w];
  }

  /** Selection is sound and complete for every strategy: a chosen backend is
      healthy, not ejected, admitted by its breaker and not excluded; and none is
      chosen exactly when no such backend exists (for the weighted strategy: none
      of positive weight). Weighted takes a positive weight, least connections
      the lowest-index candidate with the fewest calls in flight. */
  lemma {:induction false} SelectionSoundAndComplete(
      p: PoolState, now: u64, key: Option<Mix64.Bytes>, exclude: seq<nat>)
    requires Inv(p)
    ensures var r := Pools.Select(p, now, key, exclude).1;
            && (r.Some? ==> Candidate(p.nodes, now, exclude, r.value))
            && (r.None? <==> if p.strategy.Weighted? then !HasCapacity(p.nodes, now, exclude)
                             else forall i: nat :: !Candidate(p.nodes, now, exclude, i))
            && (r.Some? && p.strategy.Weighted? ==> p.nodes[r.value].weight > 0)
            && (r.Some? && p.strategy.LeastConnections? ==>
                  && (forall i: nat :: Candidate(p.nodes, now, exclude, i)
                        ==> p.nodes[r.value].inFlight <= p.nodes[i].inFlight)
                  && (forall i: nat :: i < r.value && Candidate(p.nodes, now, exclude, i)
                        ==> p.nodes[r.value].inFlight < p.nodes[i].inFlight))
  {
    AvailableIsCandidates(p.nodes, now, exclude, |p.nodes|);
    var a := Available(p, now, exclude);
    if a == [] {
      assert forall i: nat :: !Candidate(p.nodes, now, exclude, i) by {
        forall i: nat ensures !Candidate(p.nodes, now, exclude, i) {
          assert i !in a;
        }
      }
    } else {
      assert Candidate(p.nodes, now, exclude, a[0]) by { assert a[0] in a; }
      match p.strategy
      case RoundRobin => assert a[p.rrCursor % |a|] in a;
      case Weighted => WeightedFindsCapacity(p, now, exclude);
      case LeastConnections => LeastConnectionsPick(p, now, exclude);
      case ConsistentHash =>
        if key.Some? {
          HashOwnerIsCandidate(p, a, key.value);
        } else {
          assert a[p.rrCursor % |a|] in a;
        }
    }
  }

  lemma {:induction false} LeastConnectionsPick(p: PoolState, now: u64, exclude: seq<nat>)
    requires Available(p, now, exclude) != []
    requires Indices(Available(p, now, exclude), |p.nodes|)
    ensures var a := Available(p, now, exclude);
            var c := a[LeastBusyTo(p.nodes, a, |a|)];
            && Candidate(p.nodes, now, exclude, c)
            && (forall i: nat :: Candidate(p.nodes, now, exclude, i) ==> p.nodes[c].inFlight <= p.nodes[i].inFlight)
            && (forall i: nat :: i < c && Candidate(p.nodes, now, exclude, i)
                  ==> p.nodes[c].inFlight < p.nodes[i].inFlight)
  {
    AvailableIsCandidates(p.nodes, now, exclude, |p.nodes|);
    var a := Available(p, now, exclude);
    LeastBusyIsFirstMinimum(p.nodes, a, |a|);
    var k := LeastBusyTo(p.nodes, a, |a|);
    assert a[k] in a;
    forall i: nat | Candidate(p.nodes, now, exclude, i)
      ensures p.nodes[a[k]].inFlight <= p.nodes[i].inFlight
      ensures i < a[k] ==> p.nodes[a[k]].inFlight < p.nodes[i].inFlight
    {
      assert i in a;
      var j :| 0 <= j < |a| && a[j] == i;
      if i < a[k] && k <= j {
        assert false;
      }
    }
  }

  /** A backend of weight zero is neither charged nor chosen by the weighted
      strategy, whatever else the pool holds. */
  lemma {:induction false} ZeroWeightUntouched(
      p: PoolState, now: u64, key: Option<Mix64.Bytes>, exclude: seq<nat>, i: nat)
    requires i < |p.nodes| && p.nodes[i].weight == 0 && p.strategy.Weighted?
    ensures Pools.Select(p, now, key, exclude).0.nodes[i] == p.nodes[i]
    ensures Pools.Select(p, now, key, exclude).1 != Some(i)
  {
    var a := Available(p, now, exclude);
    var x, s := Currents(p.nodes), Scores(p.nodes, a);
    assert s[i] == 0;
    ChosenLeads(x, s);
  }
}
