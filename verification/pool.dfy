/** src/pool.rs: the pool as a value, with its selectors and state changes. */
module Pools {
  import opened Prelude
  import opened Ewma
  import opened Backends
  import opened HashRing
  import opened SmoothWrr
  import Mix64

  /** Virtual nodes per member of a pool's ring. */
  const VNODES: nat := 160

  /** The cursor is a 64-bit `usize` and wraps. */
  const CURSOR_MODULUS: nat := 0x1_0000_0000_0000_0000

  datatype Strategy = RoundRobin | Weighted | LeastConnections | ConsistentHash

  datatype PoolState = PoolState(
    nodes: seq<Node>,
    strategy: Strategy,
    health: HealthConfig,
    rrCursor: nat,
    ring: Points,
    ringSignature: seq<nat>,
    ewma: Option<EwmaConfig>)

  function NewPool(strategy: Strategy, health: HealthConfig): PoolState {
    PoolState([], strategy, health, 0, map[], [], None)
  }

  function Added(p: PoolState, node: Node): PoolState {
    p.(nodes := p.nodes + [node], ringSignature := [])
  }

  // ---- the latency mean ----------------------------------------------------

  function QualifiedSum(nodes: seq<Node>, cfg: EwmaConfig, n: nat): nat
    requires n <= |nodes|
  {
    if n == 0 then 0
    else QualifiedSum(nodes, cfg, n - 1) + (if nodes[n - 1].Qualifies(cfg) then nodes[n - 1].Latency() else 0)
  }

  function QualifiedCount(nodes: seq<Node>, cfg: EwmaConfig, n: nat): nat
    requires n <= |nodes|
  {
    if n == 0 then 0
    else QualifiedCount(nodes, cfg, n - 1) + (if nodes[n - 1].Qualifies(cfg) then 1 else 0)
  }

  function Mean(nodes: seq<Node>, cfg: EwmaConfig): u64 {
    var mean := QualifiedSum(nodes, cfg, |nodes|) / Max(QualifiedCount(nodes, cfg, |nodes|), 1);
    if mean <= U64_MAX then mean else U64_MAX
  }

  /** The ejection line a poll judges against. */
  function Line(p: PoolState): u64 {
    match p.ewma
    case None => 0
    case Some(cfg) => cfg.ThresholdMilli(Mean(p.nodes, cfg))
  }

  function Polled(p: PoolState, now: u64): PoolState {
    var line := Line(p);
    p.(nodes := seq(|p.nodes|, i requires 0 <= i < |p.nodes| => p.nodes[i].Polled(now, p.ewma, line)))
  }

  // ---- candidates ----------------------------------------------------------

  /** Available now and not excluded. */
  predicate Candidate(nodes: seq<Node>, now: u64, exclude: seq<nat>, i: nat) {
    i < |nodes| && i !in exclude && nodes[i].IsAvailable(now)
  }

  function AvailableTo(nodes: seq<Node>, now: u64, exclude: seq<nat>, n: nat): seq<nat>
    requires n <= |nodes|
  {
    if n == 0 then []
    else
      var before := AvailableTo(nodes, now, exclude, n - 1);
      if Candidate(nodes, now, exclude, n - 1) then before + [n - 1] else before
  }

  function Available(p: PoolState, now: u64, exclude: seq<nat>): seq<nat> {
    AvailableTo(p.nodes, now, exclude, |p.nodes|)
  }

  ghost predicate Increasing(a: seq<nat>) {
    forall i, j :: 0 <= i < j < |a| ==> a[i] < a[j]
  }

  ghost predicate Indices(a: seq<nat>, n: nat) {
    forall i :: 0 <= i < |a| ==> a[i] < n
  }

  lemma {:induction false} IncreasingReflects(b: seq<nat>, u: nat, v: nat)
    requires Increasing(b) && u < |b| && v < |b| && b[u] < b[v]
    ensures u < v
  {
  }

  /** The candidate list holds exactly the candidates, in index order. */
  lemma {:induction false} AvailableIsCandidates(nodes: seq<Node>, now: u64, exclude: seq<nat>, n: nat)
    requires n <= |nodes|
    ensures var a := AvailableTo(nodes, now, exclude, n);
            && Increasing(a) && Indices(a, n)
            && forall i: nat :: i in a <==> i < n && Candidate(nodes, now, exclude, i)
  {
    if n > 0 {
      AvailableIsCandidates(nodes, now, exclude, n - 1);
    }
  }

  // ---- selectors -----------------------------------------------------------

  function RoundRobinPick(p: PoolState, a: seq<nat>): (r: (PoolState, Option<nat>))
    requires a != []
  {
    (p.(rrCursor := (p.rrCursor + 1) % CURSOR_MODULUS), Some(a[p.rrCursor % |a|]))
  }

  function Currents(nodes: seq<Node>): (x: seq<int>)
    ensures |x| == |nodes|
  {
    seq(|nodes|, i requires 0 <= i < |nodes| => nodes[i].currentWeight)
  }

  /** The scores of this pick: zero for nodes that are not candidates. */
  function Scores(nodes: seq<Node>, a: seq<nat>): (s: seq<nat>)
    ensures |s| == |nodes|
  {
    seq(|nodes|, i requires 0 <= i < |nodes| => if i in a then nodes[i].Score() else 0)
  }

  function Reweighed(nodes: seq<Node>, x: seq<int>): (r: seq<Node>)
    requires |x| == |nodes|
    ensures |r| == |nodes|
  {
    seq(|nodes|, i requires 0 <= i < |nodes| => nodes[i].(currentWeight := x[i]))
  }

  ghost function WeightedPick(p: PoolState, a: seq<nat>): (PoolState, Option<nat>) {
    var x, s := Currents(p.nodes), Scores(p.nodes, a);
    (p.(nodes := Reweighed(p.nodes, Next(x, s))), Chosen(x, s))
  }

  /** The first of the first `n` candidates with the fewest calls in flight. */
  function LeastBusyTo(nodes: seq<Node>, a: seq<nat>, n: nat): (k: nat)
    requires Indices(a, |nodes|) && 0 < n <= |a|
    ensures k < n
  {
    if n == 1 then 0
    else
      var k := LeastBusyTo(nodes, a, n - 1);
      if nodes[a[n - 1]].inFlight < nodes[a[k]].inFlight then n - 1 else k
  }

  function MembersOf(nodes: seq<Node>, a: seq<nat>): (ms: seq<Member>)
    requires Indices(a, |nodes|)
    ensures |ms| == |a|
  {
    seq(|a|, i requires 0 <= i < |a| => Member(a[i], nodes[a[i]].name))
  }

  /** Refresh the cached ring if it was built for other candidates. */
  function Recached(p: PoolState, a: seq<nat>): PoolState
    requires Indices(a, |p.nodes|)
  {
    if p.ringSignature != a || p.ring == map[] then
      p.(ring := Fresh(MembersOf(p.nodes, a), VNODES), ringSignature := a)
    else p
  }

  function HashPick(p: PoolState, a: seq<nat>, key: Option<Mix64.Bytes>): (PoolState, Option<nat>)
    requires a != [] && Indices(a, |p.nodes|)
  {
    match key
    case None => RoundRobinPick(p, a)
    case Some(k) =>
      var p' := Recached(p, a);
      match Owner(p'.ring, Mix64.KeyPosition(k))
      case Some(id) => (p', Some(id))
      case None => (p', Some(a[0]))
  }

  ghost function Select(p: PoolState, now: u64, key: Option<Mix64.Bytes>, exclude: seq<nat>): (PoolState, Option<nat>) {
    AvailableIsCandidates(p.nodes, now, exclude, |p.nodes|);
    var a := Available(p, now, exclude);
    if a == [] then (p, None)
    else
      match p.strategy
      case RoundRobin => RoundRobinPick(p, a)
      case Weighted => WeightedPick(p, a)
      case LeastConnections => (p, Some(a[LeastBusyTo(p.nodes, a, |a|)]))
      case ConsistentHash => HashPick(p, a, key)
  }

  // ---- outcomes and probes ---------------------------------------------------

  function WithNode(p: PoolState, i: nat, node: Node): PoolState
    requires i < |p.nodes|
  {
    p.(nodes := p.nodes[i := node])
  }

  /** Probes every backend that is due; `dead` holds the backends whose upstream
      answers a probe with failure. */
  function Probed(p: PoolState, now: u64, dead: set<nat>): PoolState {
    p.(nodes := seq(|p.nodes|, i requires 0 <= i < |p.nodes| => p.nodes[i].Probed(now, p.health, i !in dead)))
  }
}
