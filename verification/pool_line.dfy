/** The latency ejection line: how many backends it can catch at once. */
module PoolLine {
  import opened Prelude
  import opened Ewma
  import opened Backends
  import opened Sums
  import opened Pools

  /** The backends that count: those with samples enough. */
  ghost function Counting(nodes: seq<Node>, cfg: EwmaConfig): (mask: Mask)
    ensures |mask| == |nodes|
  {
    seq(|nodes|, i requires 0 <= i < |nodes| => cfg.minSamples <= nodes[i].ewmaSamples)
  }

  /** What each backend reports, zero before its first sample. */
  ghost function Averages(nodes: seq<Node>): (x: seq<int>)
    ensures |x| == |nodes|
  {
    seq(|nodes|, i requires 0 <= i < |nodes| =>
      match nodes[i].latencyEwmaMilli case None => 0 case Some(v) => v)
  }

  lemma {:induction false} QualifiedIsPart(nodes: seq<Node>, cfg: EwmaConfig, n: nat)
    requires n <= |nodes|
    ensures QualifiedSum(nodes, cfg, n) == PartTo(Counting(nodes, cfg), Averages(nodes), n)
    ensures QualifiedCount(nodes, cfg, n) == CountTo(Counting(nodes, cfg), n)
  {
    if n > 0 {
      QualifiedIsPart(nodes, cfg, n - 1);
    }
  }

  /** How many of the first `n` backends are over the line. */
  ghost function OverCount(nodes: seq<Node>, cfg: EwmaConfig, line: u64, n: nat): nat
    requires n <= |nodes|
  {
    if n == 0 then 0
    else
      var over := Counting(nodes, cfg)[n - 1] && Averages(nodes)[n - 1] > line;
      OverCount(nodes, cfg, line, n - 1) + (if over then 1 else 0)
  }

  lemma {:induction false} OverSum(nodes: seq<Node>, cfg: EwmaConfig, line: u64, n: nat)
    requires n <= |nodes|
    ensures OverCount(nodes, cfg, line, n) * (line + 1) <= QualifiedSum(nodes, cfg, n)
    ensures OverCount(nodes, cfg, line, n) <= QualifiedCount(nodes, cfg, n)
  {
    if n > 0 {
      OverSum(nodes, cfg, line, n - 1);
      MulDistributes(OverCount(nodes, cfg, line, n - 1), 1, line + 1);
    }
  }

  lemma {:induction false} QualifiedSumBounds(nodes: seq<Node>, cfg: EwmaConfig, low: nat, n: nat)
    requires n <= |nodes|
    requires forall i :: 0 <= i < n && nodes[i].Qualifies(cfg) ==> low <= nodes[i].Latency()
    ensures low * QualifiedCount(nodes, cfg, n) <= QualifiedSum(nodes, cfg, n)
    ensures QualifiedSum(nodes, cfg, n) <= U64_MAX * QualifiedCount(nodes, cfg, n)
    ensures QualifiedCount(nodes, cfg, n) <= n
  {
    if n > 0 {
      QualifiedSumBounds(nodes, cfg, low, n - 1);
      MulDistributes(QualifiedCount(nodes, cfg, n - 1), 1, low);
      MulDistributes(QualifiedCount(nodes, cfg, n - 1), 1, U64_MAX);
    }
  }

  lemma {:induction false} FloorQuotient(sum: nat, n: nat, top: nat)
    requires n > 0 && sum <= top * n
    ensures n * (sum / n) <= sum < n * (sum / n + 1)
    ensures sum / n <= top
  {
    var q := sum / n;
    assert sum == n * q + sum % n;
    MulDistributes(q, 1, n);
    if q > top {
      MulMonotone(n, top + 1, q);
      MulDistributes(top, 1, n);
    }
  }

  /** The mean is the exact floor of the average over the qualifying backends; it
      never saturates, it is zero when nobody qualifies, and the sum fits in 128
      bits for any pool that fits in memory. */
  lemma {:induction false} MeanIsFloor(nodes: seq<Node>, cfg: EwmaConfig)
    ensures var n, sum := Count(Counting(nodes, cfg)), Part(Counting(nodes, cfg), Averages(nodes));
            var mean := Mean(nodes, cfg);
            && n == QualifiedCount(nodes, cfg, |nodes|) && sum == QualifiedSum(nodes, cfg, |nodes|)
            && (n > 0 ==> n * mean <= sum < n * (mean + 1))
            && (n == 0 ==> mean == 0)
            && (|nodes| <= U64_MAX ==> sum <= U128_MAX)
  {
    QualifiedSumBounds(nodes, cfg, 0, |nodes|);
    QualifiedIsPart(nodes, cfg, |nodes|);
    var n, sum := QualifiedCount(nodes, cfg, |nodes|), QualifiedSum(nodes, cfg, |nodes|);
    if n > 0 {
      FloorQuotient(sum, n, U64_MAX);
    }
    if |nodes| <= U64_MAX {
      MulMonotone(U64_MAX, n, U64_MAX);
    }
  }

  /** Backend `i` is over the line of its pool: samples enough, and an average above
      the factor, in thousandths, times the mean. */
  ghost predicate OverFactor(p: PoolState, i: nat)
    requires i < |p.nodes|
  {
    && p.ewma.Some? && p.ewma.value.minSamples <= p.nodes[i].ewmaSamples
    && p.nodes[i].latencyEwmaMilli.Some?
    && 1000 * p.nodes[i].latencyEwmaMilli.value > Mean(p.nodes, p.ewma.value) * p.ewma.value.factorMilli
  }

  /** The line a poll judges against decides exactly that, rounding and saturation
      included. */
  lemma {:induction false} LineDecidesFactor(p: PoolState, i: nat)
    requires i < |p.nodes| && p.ewma.Some?
    ensures OverFactor(p, i)
            <==> && p.ewma.value.minSamples <= p.nodes[i].ewmaSamples && p.nodes[i].latencyEwmaMilli.Some?
                 && p.nodes[i].latencyEwmaMilli.value > Line(p)
    ensures OverFactor(p, i) <==> p.nodes[i].OverLine(p.ewma.value, Line(p))
  {
    hide Mean;
    var mean := Mean(p.nodes, p.ewma.value);
    LineMonotoneAndSaturating(p.ewma.value, mean, mean);
  }

  /** Of `n` qualifying backends, the `m` over the line a poll uses satisfy
      `m * (line + 1) <= sum < n * (mean + 1)`: a line above the mean can only
      catch a matching fraction of the pool. */
  lemma {:induction false} LineCatchesAFraction(p: PoolState, cfg: EwmaConfig)
    requires p.ewma == Some(cfg) && Count(Counting(p.nodes, cfg)) > 0
    ensures var mean, line := Mean(p.nodes, cfg), Line(p);
            var n, m := Count(Counting(p.nodes, cfg)), OverCount(p.nodes, cfg, line, |p.nodes|);
            && m * (line + 1) <= Part(Counting(p.nodes, cfg), Averages(p.nodes)) < n * (mean + 1)
            && m <= n
            && (cfg.factorMilli >= 1000 ==> m < n)
  {
    hide Mean, EwmaConfig.ThresholdMilli, Count, Part, Counting, Averages;
    var mean, line := Mean(p.nodes, cfg), Line(p);
    var n, m := Count(Counting(p.nodes, cfg)), OverCount(p.nodes, cfg, line, |p.nodes|);
    MeanIsFloor(p.nodes, cfg);
    OverSum(p.nodes, cfg, line, |p.nodes|);
    if cfg.factorMilli >= 1000 {
      LineAboveMean(cfg, mean);
      MulMonotone(m, mean as int + 1, line as int + 1);
    }
  }

  /** With a factor of at least one, the fastest qualifying backend is never over
      the line, so a poll never ejects it for latency. */
  lemma {:induction false} FastestIsSpared(p: PoolState, now: u64, cfg: EwmaConfig, i: nat)
    requires p.ewma == Some(cfg) && cfg.factorMilli >= 1000
    requires i < |p.nodes| && Counting(p.nodes, cfg)[i]
    requires forall j :: 0 <= j < |p.nodes| && Counting(p.nodes, cfg)[j]
                         ==> Averages(p.nodes)[i] <= Averages(p.nodes)[j]
    ensures !OverFactor(p, i)
    ensures Polled(p, now).nodes[i].ewmaEjections == p.nodes[i].ewmaEjections
  {
    FastestBelowMean(p.nodes, cfg, i);
    LineAboveMean(cfg, Mean(p.nodes, cfg));
    LineDecidesFactor(p, i);
    SparedNode(p.nodes[i], now, cfg, Line(p));
  }

  lemma {:induction false} FastestBelowMean(nodes: seq<Node>, cfg: EwmaConfig, i: nat)
    requires i < |nodes| && Counting(nodes, cfg)[i]
    requires forall j :: 0 <= j < |nodes| && Counting(nodes, cfg)[j] ==> Averages(nodes)[i] <= Averages(nodes)[j]
    ensures Averages(nodes)[i] <= Mean(nodes, cfg)
  {
    hide Mean, Count, Part;
    var low, n, mean := nodes[i].Latency(), QualifiedCount(nodes, cfg, |nodes|), Mean(nodes, cfg);
    forall j | 0 <= j < |nodes| && nodes[j].Qualifies(cfg) ensures low <= nodes[j].Latency() {
      assert Counting(nodes, cfg)[j];
    }
    QualifiedSumBounds(nodes, cfg, low, |nodes|);
    CountPositive(nodes, cfg, i, |nodes|);
    MeanIsFloor(nodes, cfg);
    if low > mean {
      MulMonotone(n, mean + 1, low);
    }
  }

  lemma {:induction false} CountPositive(nodes: seq<Node>, cfg: EwmaConfig, i: nat, n: nat)
    requires i < n <= |nodes| && nodes[i].Qualifies(cfg)
    ensures QualifiedCount(nodes, cfg, n) > 0
  {
    if i < n - 1 {
      CountPositive(nodes, cfg, i, n - 1);
    }
  }

  lemma {:induction false} SparedNode(n: Node, now: u64, cfg: EwmaConfig, line: u64)
    requires !n.OverLine(cfg, line)
    ensures n.Polled(now, Some(cfg), line).ewmaEjections == n.ewmaEjections
  {
  }
}
