/** src/pool.rs: the pool as the object the proxy updates in place. Every method
    is tied to the value-level operation of the same meaning. */
module PoolObject {
  import opened Prelude
  import opened Ewma
  import opened Backends
  import opened HashRing
  import opened Sums
  import opened SmoothWrr
  import opened Pools
  import Mix64

  /** No two backends share an object. Backends never change breakers. */
  ghost predicate Separate(bs: seq<Backend>) {
    && (forall i, j :: 0 <= i < j < |bs| ==> bs[i] != bs[j])
    && (forall i, j :: 0 <= i < j < |bs| ==> bs[i].breaker != bs[j].breaker)
  }

  ghost function Parts(bs: seq<Backend>): set<object> {
    (set i | 0 <= i < |bs| :: bs[i] as object) + (set i | 0 <= i < |bs| :: bs[i].breaker as object)
  }

  lemma {:induction false} PartsContain(bs: seq<Backend>, i: nat)
    requires i < |bs|
    ensures bs[i] in Parts(bs) && bs[i].breaker in Parts(bs)
  {
  }

  ghost function Views(bs: seq<Backend>): (nodes: seq<Node>)
    reads Parts(bs)
    ensures |nodes| == |bs|
    ensures forall i :: 0 <= i < |bs| ==> (PartsContain(bs, i); nodes[i] == bs[i].View())
  {
    if bs == [] then []
    else
      var last := |bs| - 1;
      PartsContain(bs, last);
      PartsShrink(bs);
      Views(bs[..last]) + [bs[last].View()]
  }

  lemma {:induction false} PartsShrink(bs: seq<Backend>)
    requires bs != []
    ensures Parts(bs[..|bs| - 1]) <= Parts(bs)
  {
    var rest := bs[..|bs| - 1];
    forall i | 0 <= i < |rest| ensures rest[i] in Parts(bs) && rest[i].breaker in Parts(bs) {
      PartsContain(bs, i);
    }
  }

  /** The nodes when the first `i` have been polled. */
  ghost function PolledTo(nodes: seq<Node>, i: nat, now: u64, ewma: Option<EwmaConfig>, line: u64): (r: seq<Node>)
    requires i <= |nodes|
    ensures |r| == |nodes|
  {
    seq(|nodes|, k requires 0 <= k < |nodes| => if k < i then nodes[k].Polled(now, ewma, line) else nodes[k])
  }

  lemma {:induction false} PolledNone(nodes: seq<Node>, now: u64, ewma: Option<EwmaConfig>, line: u64)
    ensures PolledTo(nodes, 0, now, ewma, line) == nodes
  {
    hide Node.Polled;
  }

  lemma {:induction false} PolledOneMore(nodes: seq<Node>, i: nat, now: u64, ewma: Option<EwmaConfig>, line: u64)
    requires i < |nodes|
    ensures var r := PolledTo(nodes, i, now, ewma, line);
            PolledTo(nodes, i + 1, now, ewma, line) == r[i := r[i].Polled(now, ewma, line)]
  {
    hide Node.Polled;
  }

  /** The nodes when the first `i` have been probed. */
  ghost function ProbedTo(nodes: seq<Node>, i: nat, now: u64, health: HealthConfig, dead: set<nat>): (r: seq<Node>)
    requires i <= |nodes|
    ensures |r| == |nodes|
  {
    seq(|nodes|, k requires 0 <= k < |nodes| => if k < i then nodes[k].Probed(now, health, k !in dead) else nodes[k])
  }

  lemma {:induction false} ProbedNone(nodes: seq<Node>, now: u64, health: HealthConfig, dead: set<nat>)
    ensures ProbedTo(nodes, 0, now, health, dead) == nodes
  {
    hide Node.Probed;
  }

  lemma {:induction false} ProbedOneMore(nodes: seq<Node>, i: nat, now: u64, health: HealthConfig, dead: set<nat>)
    requires i < |nodes|
    ensures var r := ProbedTo(nodes, i, now, health, dead);
            ProbedTo(nodes, i + 1, now, health, dead) == r[i := r[i].Probed(now, health, i !in dead)]
  {
    hide Node.Probed;
  }

  // ---- the weighted scan over a candidate list -------------------------------

  /** Only candidates score. */
  ghost predicate OnlyListed(s: seq<nat>, a: seq<nat>) {
    Increasing(a) && Indices(a, |s|) && forall j :: 0 <= j < |s| && j !in a ==> s[j] == 0
  }

  /** The current weights when the first `n` candidates have been charged. */
  ghost function Charged(x: seq<int>, s: seq<nat>, a: seq<nat>, n: nat): (r: seq<int>)
    requires |x| == |s| && n <= |a|
    ensures |r| == |x|
  {
    seq(|x|, j requires 0 <= j < |x| => if j in a[..n] then x[j] + s[j] else x[j])
  }

  /** Everything below this index has been scanned. */
  ghost function Scanned(a: seq<nat>, n: nat): nat
    requires n <= |a|
  {
    if n == 0 then 0 else a[n - 1] + 1
  }

  lemma {:induction false} IdleStretch(y: seq<int>, s: seq<nat>, lo: nat, hi: nat)
    requires lo <= hi <= |s| == |y|
    requires forall j :: lo <= j < hi ==> s[j] == 0
    ensures LeaderTo(y, s, hi) == LeaderTo(y, s, lo)
    ensures PartTo(Everyone(|s|), s, hi) == PartTo(Everyone(|s|), s, lo)
  {
    if lo < hi {
      IdleStretch(y, s, lo, hi - 1);
    }
  }

  lemma {:induction false} NotListedBetween(a: seq<nat>, n: nat, j: nat)
    requires Increasing(a) && n <= |a| && Scanned(a, n) <= j && (n < |a| ==> j < a[n])
    ensures j !in a
  {
    forall k | 0 <= k < |a| ensures a[k] != j {
      if k < n {
        assert a[k] <= a[n - 1];
      } else {
        assert a[n] <= a[k];
      }
    }
  }

  /** Between two candidates the scan changes nothing. */
  lemma {:induction false} ScanSkips(x: seq<int>, s: seq<nat>, a: seq<nat>, n: nat)
    requires |x| == |s| && OnlyListed(s, a) && n < |a|
    ensures Scanned(a, n) <= a[n]
    ensures LeaderTo(Plus(x, s), s, a[n]) == LeaderTo(Plus(x, s), s, Scanned(a, n))
    ensures PartTo(Everyone(|s|), s, a[n]) == PartTo(Everyone(|s|), s, Scanned(a, n))
  {
    assert n > 0 ==> a[n - 1] < a[n];
    forall j | Scanned(a, n) <= j < a[n] ensures s[j] == 0 {
      NotListedBetween(a, n, j);
    }
    IdleStretch(Plus(x, s), s, Scanned(a, n), a[n]);
  }

  lemma {:induction false} ChargedNext(x: seq<int>, s: seq<nat>, a: seq<nat>, n: nat)
    requires |x| == |s| && OnlyListed(s, a) && n < |a|
    ensures Charged(x, s, a, n)[a[n]] == x[a[n]]
    ensures Charged(x, s, a, n + 1) == Charged(x, s, a, n)[a[n] := Plus(x, s)[a[n]]]
  {
    assert a[..n + 1] == a[..n] + [a[n]];
    assert a[n] !in a[..n];
  }

  /** The leader so far has already been charged. */
  lemma {:induction false} LeaderIsCharged(x: seq<int>, s: seq<nat>, a: seq<nat>, n: nat, b: nat)
    requires |x| == |s| && OnlyListed(s, a) && n < |a| && b < a[n] && b < |s| && s[b] > 0
    ensures Charged(x, s, a, n)[b] == Plus(x, s)[b]
  {
    assert b in a;
    var k :| 0 <= k < |a| && a[k] == b;
    IncreasingReflects(a, k, n);
    assert a[..n][k] == b;
  }

  lemma {:induction false} ScanEnd(x: seq<int>, s: seq<nat>, a: seq<nat>)
    requires |x| == |s| && OnlyListed(s, a)
    ensures Scanned(a, |a|) <= |s|
    ensures LeaderTo(Plus(x, s), s, Scanned(a, |a|)) == Chosen(x, s)
    ensures PartTo(Everyone(|s|), s, Scanned(a, |a|)) == Sum(s)
    ensures Charged(x, s, a, |a|) == Plus(x, s)
  {
    forall j | Scanned(a, |a|) <= j < |s| ensures s[j] == 0 {
      NotListedBetween(a, |a|, j);
    }
    IdleStretch(Plus(x, s), s, Scanned(a, |a|), |s|);
    assert a[..|a|] == a;
  }

  lemma {:induction false} ScanStart(x: seq<int>, s: seq<nat>, a: seq<nat>)
    requires |x| == |s|
    ensures Scanned(a, 0) == 0 && |Everyone(|s|)| == |s|
    ensures LeaderTo(Plus(x, s), s, 0) == None && PartTo(Everyone(|s|), s, 0) == 0
  {
  }

  lemma {:induction false} ScanOne(x: seq<int>, s: seq<nat>, i: nat)
    requires |x| == |s| && i < |s|
    ensures var y, b := Plus(x, s), LeaderTo(Plus(x, s), s, i);
            LeaderTo(y, s, i + 1)
            == if s[i] == 0 then b else if b.None? || y[i] > y[b.value] then Some(i) else b
    ensures PartTo(Everyone(|s|), s, i + 1) == PartTo(Everyone(|s|), s, i) + s[i]
  {
  }

  lemma {:induction false} PlusAt(x: seq<int>, s: seq<nat>, i: nat)
    requires |x| == |s| && i < |s|
    ensures Plus(x, s)[i] == x[i] + s[i]
  {
  }

  /** What a pick leaves behind, in terms of the charged weights. */
  lemma {:induction false} PickedNodes(nodes: seq<Node>, x: seq<int>, s: seq<nat>)
    requires |nodes| == |x| == |s|
    ensures Reweighed(nodes, Next(x, s))
            == var charged := Reweighed(nodes, Plus(x, s));
               match Chosen(x, s)
               case None => charged
               case Some(b) => charged[b := charged[b].(currentWeight := charged[b].currentWeight - Sum(s))]
  {
    ChosenLeads(x, s);
    match Chosen(x, s)
    case None => assert Plus(x, s) == x;
    case Some(b) => ReweighedOne(nodes, Plus(x, s), b, x[b] + s[b] - Sum(s));
  }

  lemma {:induction false} ChargedNone(nodes: seq<Node>, s: seq<nat>, a: seq<nat>)
    requires |nodes| == |s|
    ensures Reweighed(nodes, Charged(Currents(nodes), s, a, 0)) == nodes
  {
    assert Charged(Currents(nodes), s, a, 0) == Currents(nodes);
  }

  lemma {:induction false} ScoreOf(nodes: seq<Node>, c: seq<int>, i: nat)
    requires |c| == |nodes| && i < |nodes|
    ensures var n := Reweighed(nodes, c)[i];
            && n == nodes[i].(currentWeight := c[i])
            && n.Score() == nodes[i].Score() && n.Score() == n.weight * n.rampPercent
  {
  }

  /** Everything one turn of the scan relies on and establishes. */
  lemma {:induction false} ScanBody(nodes: seq<Node>, a: seq<nat>, n: nat)
    requires Increasing(a) && Indices(a, |nodes|) && n < |a|
    ensures a[n] < |nodes|
    ensures var x, s, i := Currents(nodes), Scores(nodes, a), a[n];
            var c := Charged(x, s, a, n);
            var b := LeaderTo(Plus(x, s), s, i);
            && s[i] == nodes[i].Score() && c[i] == x[i]
            && Scanned(a, n) <= i && Scanned(a, n + 1) == i + 1
            && b == LeaderTo(Plus(x, s), s, Scanned(a, n))
            && (b.Some? ==> b.value != i && c[b.value] == Plus(x, s)[b.value])
            && PartTo(Everyone(|s|), s, i) == PartTo(Everyone(|s|), s, Scanned(a, n))
            && Charged(x, s, a, n + 1) == c[i := Plus(x, s)[i]]
  {
    hide LeaderTo, PartTo, Charged, OnlyListed;
    var x, s := Currents(nodes), Scores(nodes, a);
    ScoresListed(nodes, a);
    ScanSkips(x, s, a, n);
    ChargedNext(x, s, a, n);
    var b := LeaderTo(Plus(x, s), s, a[n]);
    if b.Some? {
      LeaderIsCharged(x, s, a, n, b.value);
    }
  }

  lemma {:induction false} ScoresListed(nodes: seq<Node>, a: seq<nat>)
    requires Increasing(a) && Indices(a, |nodes|)
    ensures OnlyListed(Scores(nodes, a), a)
  {
  }

  lemma {:induction false} ReweighedOne(nodes: seq<Node>, x: seq<int>, i: nat, v: int)
    requires |x| == |nodes| && i < |nodes|
    ensures Reweighed(nodes, x[i := v]) == Reweighed(nodes, x)[i := Reweighed(nodes, x)[i].(currentWeight := v)]
  {
  }

  class Pool {
    var backends: seq<Backend>
    var strategy: Strategy
    const health: HealthConfig
    var rrCursor: nat
    const ring: ConsistentHashRing
    var ringSignature: seq<nat>
    var ewma: Option<EwmaConfig>

    ghost function Repr(): set<object>
      reads this
    {
      {this, ring} + Parts(backends)
    }

    ghost predicate RampsInRange()
      reads this, Parts(backends)
    {
      forall i :: 0 <= i < |backends| ==> (PartsContain(backends, i); 1 <= backends[i].rampPercent <= 100)
    }

    ghost predicate Apart()
      reads this
    {
      this as object !in Parts(backends) && ring as object !in Parts(backends)
    }

    /** The pool owns its backends and its ring, each backend its breaker. */
    ghost predicate Valid()
      reads this, Repr()
    {
      && Apart()
      && Separate(backends) && ring.vnodes == VNODES && rrCursor < CURSOR_MODULUS && RampsInRange()
    }

    ghost function View(): PoolState
      reads this, Repr()
    {
      PoolState(Views(backends), strategy, health, rrCursor, ring.ring, ringSignature, ewma)
    }

    constructor (strategy: Strategy, health: HealthConfig)
      ensures Valid() && fresh(ring) && backends == []
      ensures View() == NewPool(strategy, health)
    {
      backends := [];
      this.strategy, this.health := strategy, health;
      rrCursor := 0;
      ring := new ConsistentHashRing(VNODES);
      ringSignature := [];
      ewma := None;
    }

    method AddBackend(b: Backend)
      requires Valid() && b !in Parts(backends) && b.breaker !in Parts(backends)
      requires 1 <= b.rampPercent <= 100
      modifies this
      ensures Valid() && backends == old(backends) + [b]
      ensures View() == Added(old(View()), b.View())
    {
      hide Node.Polled;
      forall i | 0 <= i < |backends| ensures backends[i] != b && backends[i].breaker != b.breaker {
        PartsContain(backends, i);
      }
      backends := backends + [b];
      ringSignature := [];
      assert backends[..|backends| - 1] == old(backends);
    }

    method SetStrategy(s: Strategy)
      requires Valid()
      modifies this
      ensures Valid() && View() == old(View()).(strategy := s) && backends == old(backends)
    {
      strategy := s;
    }

    method EnableEwma(cfg: EwmaConfig)
      requires Valid()
      modifies this
      ensures Valid() && View() == old(View()).(ewma := Some(cfg)) && backends == old(backends)
    {
      ewma := Some(cfg);
    }

    // ---- poll --------------------------------------------------------------

    /** The mean average latency over backends with enough samples. */
    method EwmaMean(cfg: EwmaConfig) returns (mean: u64)
      ensures mean == Mean(Views(backends), cfg)
    {
      var sum, n := 0, 0;
      for i := 0 to |backends|
        invariant sum == QualifiedSum(Views(backends), cfg, i)
        invariant n == QualifiedCount(Views(backends), cfg, i)
      {
        var b := backends[i];
        assert Views(backends)[i] == b.View();
        if b.ewmaSamples >= cfg.minSamples {
          sum := sum + (if b.latencyEwmaMilli.Some? then b.latencyEwmaMilli.value else 0);
          n := n + 1;
        }
      }
      var m := sum / Max(n, 1);
      mean := if m <= U64_MAX then m else U64_MAX;
    }

    method Threshold() returns (line: u64)
      requires Valid()
      ensures line == Line(View())
    {
      hide Mean, EwmaConfig.ThresholdMilli;
      line := 0;
      if ewma.Some? {
        var mean := EwmaMean(ewma.value);
        line := ewma.value.ThresholdMilli(mean);
      }
    }

    method Poll(now: u64)
      requires Valid()
      modifies Parts(backends)
      ensures Valid() && View() == Polled(old(View()), now)
    {
      hide Node.Polled, Line, Views;
      ghost var before := Views(backends);
      var line := Threshold();
      PollAll(now, line);
      assert PolledTo(before, |backends|, now, ewma, line) == Polled(old(View()), now).nodes;
    }

    method PollAll(now: u64, line: u64)
      requires Valid()
      modifies Parts(backends)
      ensures RampsInRange()
      ensures Views(backends) == PolledTo(old(Views(backends)), |backends|, now, ewma, line)
    {
      hide PolledTo, Separate, Views, RampsInRange, Node.Polled;
      ghost var before := Views(backends);
      PolledNone(before, now, ewma, line);
      for i := 0 to |backends|
        invariant RampsInRange()
        invariant Views(backends) == PolledTo(before, i, now, ewma, line)
      {
        PartsContain(backends, i);
        PolledOneMore(before, i, now, ewma, line);
        PollAt(i, now, line);
      }
    }

    method PollAt(i: nat, now: u64, line: u64)
      requires Valid() && i < |backends|
      modifies backends[i], backends[i].breaker
      ensures RampsInRange()
      ensures Views(backends) == old(Views(backends))[i := old(Views(backends)[i]).Polled(now, ewma, line)]
    {
      hide Node.Polled;
      backends[i].Poll(now, ewma, line);
      assert forall k :: 0 <= k < |backends| && k != i ==> backends[k].View() == old(backends[k].View());
    }

    // ---- candidates ----------------------------------------------------------

    method AvailableIndices(now: u64, exclude: seq<nat>) returns (available: seq<nat>)
      ensures available == AvailableTo(Views(backends), now, exclude, |backends|)
    {
      available := [];
      for i := 0 to |backends|
        invariant available == AvailableTo(Views(backends), now, exclude, i)
      {
        assert Views(backends)[i] == backends[i].View();
        if i !in exclude && backends[i].IsAvailable(now) {
          available := available + [i];
        }
      }
    }

    // ---- selectors -----------------------------------------------------------

    method SelectRoundRobin(available: seq<nat>) returns (pick: nat)
      requires Valid() && available != []
      modifies this`rrCursor
      ensures Valid() && (View(), Some(pick)) == RoundRobinPick(old(View()), available)
    {
      pick := available[rrCursor % |available|];
      rrCursor := (rrCursor + 1) % CURSOR_MODULUS;
      assert forall k :: 0 <= k < |backends| ==> backends[k].View() == old(backends[k].View());
    }

    method SetCurrentWeight(i: nat, v: int)
      requires Valid() && i < |backends|
      modifies backends[i]
      ensures RampsInRange() && backends[i].currentWeight == v
      ensures Views(backends) == old(Views(backends))[i := old(Views(backends)[i]).(currentWeight := v)]
    {
      hide Views;
      backends[i].currentWeight := v;
      assert forall k :: 0 <= k < |backends| && k != i ==> backends[k].View() == old(backends[k].View());
    }

    /** One pass: charge every candidate its score while keeping the leader and
        the running total, then collect the total from the leader. */
    method SelectWeighted(available: seq<nat>) returns (best: Option<nat>)
      requires Valid() && Increasing(available) && Indices(available, |backends|)
      modifies Parts(backends)
      ensures Valid() && (View(), best) == WeightedPick(old(View()), available)
    {
      hide Chosen, Scores, Currents, Plus, Sum, Views, Reweighed, Next, Separate, RampsInRange;
      ghost var nodes := Views(backends);
      ghost var x, s := Currents(nodes), Scores(nodes, available);
      var total;
      best, total := ChargeAll(available, nodes, x, s);
      PickedNodes(nodes, x, s);
      if best.Some? {
        PartsContain(backends, best.value);
        Collect(best.value, total);
      }
    }

    method Collect(i: nat, total: int)
      requires Valid() && i < |backends|
      modifies backends[i]
      ensures Valid()
      ensures var n := old(Views(backends)[i]);
              Views(backends) == old(Views(backends))[i := n.(currentWeight := n.currentWeight - total)]
    {
      hide Views;
      var w := CurrentWeightAt(i);
      SetCurrentWeight(i, w - total);
    }

    method ChargeAll(available: seq<nat>, ghost nodes: seq<Node>, ghost x: seq<int>, ghost s: seq<nat>)
      returns (best: Option<nat>, total: int)
      requires Valid() && Increasing(available) && Indices(available, |backends|)
      requires nodes == Views(backends) && x == Currents(nodes) && s == Scores(nodes, available)
      modifies Parts(backends)
      ensures Valid() && Views(backends) == Reweighed(nodes, Plus(x, s))
      ensures best == Chosen(x, s) && total == Sum(s)
    {
      hide *;
      ScoresListed(nodes, available);
      ChargedNone(nodes, s, available);
      ScanStart(x, s, available);
      best, total := None, 0;
      for n := 0 to |available|
        invariant Valid() && backends == old(backends)
        invariant Scanned(available, n) <= |s|
        invariant Views(backends) == Reweighed(nodes, Charged(x, s, available, n))
        invariant best == LeaderTo(Plus(x, s), s, Scanned(available, n))
        invariant total == PartTo(Everyone(|s|), s, Scanned(available, n))
      {
        ScanBody(nodes, available, n);
        PartsContain(backends, available[n]);
        best, total := Charge(available[n], best, total, nodes, x, s, Charged(x, s, available, n));
      }
      ScanEnd(x, s, available);
    }

    /** The body of that pass for one candidate. */
    method Charge(i: nat, best: Option<nat>, total: int, ghost nodes: seq<Node>,
                  ghost x: seq<int>, ghost s: seq<nat>, ghost c: seq<int>)
      returns (best': Option<nat>, total': int)
      requires Valid() && i < |backends| == |nodes| == |x| == |s| == |c|
      requires s[i] == nodes[i].Score() && c[i] == x[i]
      requires Views(backends) == Reweighed(nodes, c)
      requires best == LeaderTo(Plus(x, s), s, i)
      requires best.Some? ==> best.value != i && c[best.value] == Plus(x, s)[best.value]
      requires total == PartTo(Everyone(|s|), s, i)
      modifies backends[i]
      ensures Valid()
      ensures Views(backends) == Reweighed(nodes, c[i := Plus(x, s)[i]])
      ensures best' == LeaderTo(Plus(x, s), s, i + 1)
      ensures total' == PartTo(Everyone(|s|), s, i + 1)
    {
      hide LeaderTo, PartTo, Plus, Views;
      best', total' := best, total;
      var b := backends[i];
      ScanOne(x, s, i);
      PlusAt(x, s, i);
      ReweighedOne(nodes, c, i, Plus(x, s)[i]);
      ScoreOf(nodes, c, i);
      assert Views(backends)[i] == b.View();
      if b.weight != 0 {
        var score := b.weight * b.rampPercent;
        MulMonotone(b.weight, 1, b.rampPercent);
        total' := total' + score;
        var overtakes := best.None? || b.currentWeight + score > CurrentWeightAt(best.value);
        SetCurrentWeight(i, b.currentWeight + score);
        if overtakes {
          best' := Some(i);
        }
      }
    }

    function CurrentWeightAt(i: nat): (w: int)
      requires i < |backends|
      reads this, backends[i], Parts(backends)
      ensures w == Views(backends)[i].currentWeight
    {
      assert Views(backends)[i] == backends[i].View();
      backends[i].currentWeight
    }

    method SelectLeastConn(available: seq<nat>) returns (best: nat)
      requires available != [] && Indices(available, |backends|)
      ensures best == available[LeastBusyTo(Views(backends), available, |available|)]
    {
      hide Views;
      best := available[0];
      for n := 1 to |available|
        invariant best == available[LeastBusyTo(Views(backends), available, n)]
      {
        var i := available[n];
        assert Views(backends)[i] == backends[i].View() && Views(backends)[best] == backends[best].View();
        if backends[i].inFlight < backends[best].inFlight {
          best := i;
        }
      }
    }

    method Members(available: seq<nat>) returns (members: seq<Member>)
      requires Indices(available, |backends|)
      ensures members == MembersOf(Views(backends), available)
    {
      members := [];
      for n := 0 to |available|
        invariant members == MembersOf(Views(backends), available[..n])
      {
        var i := available[n];
        assert Views(backends)[i].name == backends[i].name;
        assert available[..n + 1] == available[..n] + [i];
        members := members + [Member(i, backends[i].name)];
      }
      assert available[..|available|] == available;
    }

    method RebuildRing(members: seq<Member>, available: seq<nat>)
      requires Valid()
      modifies this`ringSignature, ring
      ensures Valid()
      ensures View() == old(View()).(ring := Fresh(members, VNODES), ringSignature := available)
    {
      hide Fresh;
      ring.Rebuild(members);
      ringSignature := available;
      assert forall k :: 0 <= k < |backends| ==> backends[k].View() == old(backends[k].View());
    }

    method RefreshRing(available: seq<nat>)
      requires Valid() && Indices(available, |backends|)
      modifies this`ringSignature, ring
      ensures Valid() && View() == Recached(old(View()), available)
    {
      hide Fresh, MembersOf, Views;
      if ringSignature != available || ring.IsEmpty() {
        var members := Members(available);
        RebuildRing(members, available);
      }
    }

    method SelectHash(available: seq<nat>, key: Option<Mix64.Bytes>) returns (pick: nat)
      requires Valid() && available != [] && Indices(available, |backends|)
      modifies this`rrCursor, this`ringSignature, ring
      ensures Valid() && (View(), Some(pick)) == HashPick(old(View()), available, key)
    {
      hide Mix64.KeyPosition, Recached, Owner;
      if key.None? {
        pick := SelectRoundRobin(available);
        return;
      }
      RefreshRing(available);
      var id := ring.Lookup(key.value);
      pick := if id.Some? then id.value else available[0];
    }

    /** `poll` must have been called first for the answer to be current. */
    method Select(now: u64, key: Option<Mix64.Bytes>, exclude: seq<nat>) returns (r: Option<nat>)
      requires Valid()
      modifies this`rrCursor, this`ringSignature, ring, Parts(backends)
      ensures Valid() && (View(), r) == Pools.Select(old(View()), now, key, exclude)
    {
      hide WeightedPick, HashPick, RoundRobinPick, LeastBusyTo, Views, AvailableTo, Increasing;
      AvailableIsCandidates(Views(backends), now, exclude, |backends|);
      var available := AvailableIndices(now, exclude);
      if available == [] {
        return None;
      }
      match strategy {
        case RoundRobin =>
          var pick := SelectRoundRobin(available);
          r := Some(pick);
        case Weighted =>
          r := SelectWeighted(available);
        case LeastConnections =>
          var pick := SelectLeastConn(available);
          r := Some(pick);
        case ConsistentHash =>
          var pick := SelectHash(available, key);
          r := Some(pick);
      }
    }

    // ---- calls, outcomes and probes ----------------------------------------

    method Begin(idx: nat)
      requires Valid() && idx < |backends|
      modifies backends[idx]
      ensures Valid() && View() == WithNode(old(View()), idx, old(View()).nodes[idx].Began())
    {
      hide Node.Began, Views;
      backends[idx].Begin();
      assert forall k :: 0 <= k < |backends| && k != idx ==> backends[k].View() == old(backends[k].View());
    }

    method End(idx: nat)
      requires Valid() && idx < |backends|
      modifies backends[idx]
      ensures Valid() && View() == WithNode(old(View()), idx, old(View()).nodes[idx].Ended())
    {
      hide Node.Ended, Views;
      backends[idx].End();
      assert forall k :: 0 <= k < |backends| && k != idx ==> backends[k].View() == old(backends[k].View());
    }

    method RecordSuccess(idx: nat, now: u64)
      requires Valid() && idx < |backends|
      modifies backends[idx], backends[idx].breaker
      ensures Valid() && View() == WithNode(old(View()), idx, old(View()).nodes[idx].Succeeded(now))
    {
      hide Node.Succeeded, Views;
      backends[idx].RecordSuccess(now);
      assert forall k :: 0 <= k < |backends| && k != idx ==> backends[k].View() == old(backends[k].View());
    }

    method RecordSuccessLatency(idx: nat, now: u64, latencyMs: u64)
      requires Valid() && idx < |backends|
      modifies backends[idx], backends[idx].breaker
      ensures Valid()
      ensures View() == WithNode(old(View()), idx, old(View()).nodes[idx].SucceededIn(now, ewma, latencyMs))
    {
      hide Node.SucceededIn, Views;
      backends[idx].RecordSuccessLatency(now, ewma, latencyMs);
      assert forall k :: 0 <= k < |backends| && k != idx ==> backends[k].View() == old(backends[k].View());
    }

    method RecordFailure(idx: nat, now: u64)
      requires Valid() && idx < |backends|
      modifies backends[idx], backends[idx].breaker
      ensures Valid() && View() == WithNode(old(View()), idx, old(View()).nodes[idx].Failed(now, health))
    {
      hide Node.Failed, Views;
      backends[idx].RecordFailure(now, health);
      assert forall k :: 0 <= k < |backends| && k != idx ==> backends[k].View() == old(backends[k].View());
    }

    method RunHealthChecks(now: u64, dead: set<nat>)
      requires Valid()
      modifies Parts(backends)
      ensures Valid() && View() == Probed(old(View()), now, dead)
    {
      hide Node.Probed, Views;
      ghost var before := Views(backends);
      ProbeAll(now, dead);
      assert ProbedTo(before, |backends|, now, health, dead) == Probed(old(View()), now, dead).nodes;
    }

    method ProbeAll(now: u64, dead: set<nat>)
      requires Valid()
      modifies Parts(backends)
      ensures RampsInRange()
      ensures Views(backends) == ProbedTo(old(Views(backends)), |backends|, now, health, dead)
    {
      hide ProbedTo, Separate, Views, RampsInRange, Node.Probed;
      ghost var before := Views(backends);
      ProbedNone(before, now, health, dead);
      for i := 0 to |backends|
        invariant RampsInRange()
        invariant Views(backends) == ProbedTo(before, i, now, health, dead)
      {
        PartsContain(backends, i);
        ProbedOneMore(before, i, now, health, dead);
        ProbeAt(i, now, i !in dead);
      }
    }

    method ProbeAt(i: nat, now: u64, live: bool)
      requires Valid() && i < |backends|
      modifies backends[i]
      ensures RampsInRange()
      ensures Views(backends) == old(Views(backends))[i := old(Views(backends)[i]).Probed(now, health, live)]
    {
      hide Node.Probed;
      backends[i].Probe(now, health, live);
      assert forall k :: 0 <= k < |backends| && k != i ==> backends[k].View() == old(backends[k].View());
    }
  }
}
