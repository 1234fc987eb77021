/** Active health checks over whole runs: the four counters of a backend amount to
    one counter with hysteresis, and probes keep their cadence. */
module HealthRuns {
  import opened Prelude
  import opened Backends

  /** A chance to probe: the clock, and what the upstream would answer. */
  datatype Check = Check(now: u64, live: bool)

  ghost function After(n: Node, health: HealthConfig, cs: seq<Check>, k: nat): Node
    requires k <= |cs|
  {
    if k == 0 then n else After(n, health, cs, k - 1).Probed(cs[k - 1].now, health, cs[k - 1].live)
  }

  /** The smaller model: up with a run of bad probes, or down with a run of good
      ones; any probe that agrees with the state clears the run. */
  datatype Health = Up(bad: nat) | Down(good: nat)

  function Heard(h: Health, health: HealthConfig, live: bool): Health {
    match (h, live)
    case (Up(_), true) => Up(0)
    case (Up(bad), false) => if bad + 1 >= health.unhealthyProbeThreshold then Down(0) else Up(bad + 1)
    case (Down(_), false) => Down(0)
    case (Down(good), true) => if good + 1 >= health.healthyProbeThreshold then Up(0) else Down(good + 1)
  }

  function HeardTo(h: Health, health: HealthConfig, answers: seq<bool>, k: nat): Health
    requires k <= |answers|
  {
    if k == 0 then h else Heard(HeardTo(h, health, answers, k - 1), health, answers[k - 1])
  }

  function Remembered(n: Node): Health {
    if n.healthy then Up(n.probeFailures) else Down(n.probeSuccesses)
  }

  /** The checks that were due, hence really probed. */
  ghost function Probes(n: Node, health: HealthConfig, cs: seq<Check>, k: nat): seq<Check>
    requires k <= |cs|
  {
    if k == 0 then []
    else
      var earlier := Probes(n, health, cs, k - 1);
      if After(n, health, cs, k - 1).ProbeDue(cs[k - 1].now, health) then earlier + [cs[k - 1]] else earlier
  }

  function Answers(ps: seq<Check>): (a: seq<bool>)
    ensures |a| == |ps|
  {
    seq(|ps|, i requires 0 <= i < |ps| => ps[i].live)
  }

  lemma {:induction false} ProbeStep(n: Node, now: u64, health: HealthConfig, live: bool)
    ensures var n' := n.Probed(now, health, live);
            if n.ProbeDue(now, health)
            then Remembered(n') == Heard(Remembered(n), health, live) && n'.lastProbe == Some(now)
            else n' == n
  {
  }

  lemma {:induction false} HeardPrefix(h: Health, health: HealthConfig, a: seq<bool>, b: bool, k: nat)
    requires k <= |a|
    ensures HeardTo(h, health, a + [b], k) == HeardTo(h, health, a, k)
  {
    if k > 0 {
      HeardPrefix(h, health, a, b, k - 1);
    }
  }

  /** On every sequence of checks the health of a backend is what the smaller model
      makes of the answers actually probed, in order. */
  lemma {:induction false} HealthSimulates(n: Node, health: HealthConfig, cs: seq<Check>, k: nat)
    requires k <= |cs|
    ensures var ps := Probes(n, health, cs, k);
            Remembered(After(n, health, cs, k)) == HeardTo(Remembered(n), health, Answers(ps), |ps|)
  {
    hide Node.Probed, Node.ProbeDue, Remembered, Heard;
    if k > 0 {
      HealthSimulates(n, health, cs, k - 1);
      var q, c := After(n, health, cs, k - 1), cs[k - 1];
      ProbeStep(q, c.now, health, c.live);
      if q.ProbeDue(c.now, health) {
        var ps := Probes(n, health, cs, k - 1);
        assert Answers(ps + [c]) == Answers(ps) + [c.live];
        HeardPrefix(Remembered(n), health, Answers(ps), c.live, |ps|);
      }
    }
  }

  /** Probes keep their cadence: on a clock that never goes back, consecutive
      probes are at least one interval apart, and a check finds the backend not
      due only within one interval of the latest probe. */
  lemma {:induction false} ProbesSpaced(n: Node, health: HealthConfig, cs: seq<Check>, k: nat)
    requires k <= |cs| && n.lastProbe.None?
    requires forall i, j :: 0 <= i < j < |cs| ==> cs[i].now <= cs[j].now
    ensures var ps, last := Probes(n, health, cs, k), After(n, health, cs, k).lastProbe;
            && (forall i :: 0 < i < |ps| ==> ps[i - 1].now + health.probeIntervalMs <= ps[i].now)
            && last == (if ps == [] then None else Some(ps[|ps| - 1].now))
            && (k > 0 ==> ps != [] && ps[0] == cs[0])
            && (ps != [] ==> k > 0 && ps[|ps| - 1].now <= cs[k - 1].now)
            && (k > 0 && ps[|ps| - 1] != cs[k - 1] ==> cs[k - 1].now < ps[|ps| - 1].now + health.probeIntervalMs)
  {
    hide Node.Probed, Remembered, Heard;
    if k > 0 {
      ProbesSpaced(n, health, cs, k - 1);
      assert k > 1 ==> cs[k - 2].now <= cs[k - 1].now;
      ProbeStep(After(n, health, cs, k - 1), cs[k - 1].now, health, cs[k - 1].live);
    }
  }
}
