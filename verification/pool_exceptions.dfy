/** Runs of a new pool on which it does less than its description says. */
module PoolExceptions {
  import opened Prelude
  import opened Breaker
  import opened Backends
  import opened Pools
  import opened PoolRuns
  import opened PoolSequences

  /** Backends that start healthy and bear many failures in a row. */
  const TOLERANT := HealthConfig(1000, 3, 2, 100, 5000, true)

  /** One failure trips it for ten milliseconds, then one trial call. */
  const TOUCHY := BreakerConfig(1, 1, 10, 1)

  function Add(): Event {
    AddBackend(0, [], 1, TOLERANT, TOUCHY)
  }

  function Ask(now: u64): Event {
    Select(now, None, [])
  }

  // ---- one backend -----------------------------------------------------------

  /** The pool of one backend whose node is `n`. */
  function Alone(n: Node): PoolState {
    NewPool(LeastConnections, TOLERANT).(nodes := [n])
  }

  function Fresh(): Node {
    NewNode([], 1, TOLERANT, TOUCHY)
  }

  lemma {:induction false} SelectAlone(n: Node, now: u64)
    ensures Pools.Select(Alone(n), now, None, []) == (Alone(n), if n.IsAvailable(now) then Some(0) else None)
  {
    hide Node.IsAvailable;
    var p := Alone(n);
    assert AvailableTo(p.nodes, now, [], 0) == [];
    assert Available(p, now, []) == if n.IsAvailable(now) then [0] else [];
  }

  lemma {:induction false} EventsAlone(n: Node, now: u64)
    ensures Apply(Alone(n), Poll(now)) == Alone(n.Polled(now, None, 0))
    ensures Apply(Alone(n), Begin(now, 0)) == Alone(n.Began())
    ensures Apply(Alone(n), Failure(now, 0)) == Alone(n.Failed(now, TOLERANT))
    ensures Apply(Alone(n), Ask(now)) == Alone(n)
    ensures Apply(NewPool(LeastConnections, TOLERANT), Add()) == Alone(Fresh())
  {
    hide Node.Polled, Node.Began, Node.Failed, Pools.Select;
    SelectAlone(n, now);
  }

  /** The first failure trips the breaker and ejects nobody. */
  lemma {:induction false} FirstFailure(calls: nat)
    ensures var n := Fresh().(inFlight := calls).Failed(0, TOLERANT);
            && n.circuit == Circuit(TOUCHY, Open, 0, 0, 0, 1) && n.inFlight == calls
            && n.healthy && n.ejectedUntil.None?
            && n.Polled(10, None, 0) == n.(circuit := Circuit(TOUCHY, HalfOpen, 0, 0, 0, 1))
  {
  }

  function TwoSelections(): seq<Event> {
    [Add(), Failure(0, 0), Poll(10), Ask(10), Ask(10), Begin(10, 0), Begin(10, 0)]
  }

  /** One poll and two selections at the same instant, and only then the two calls:
      both selections answer the one HalfOpen backend, whose cap is one, and both
      its calls are in flight. So a call needs its check after the call before. */
  lemma {:induction false} TwoSelectionsBreakCap()
    ensures var es, p := TwoSelections(), NewPool(LeastConnections, TOLERANT);
            var q := After(p, es, 7);
            && Pools.Select(After(p, es, 3), 10, None, []).1 == Some(0)
            && Pools.Select(After(p, es, 4), 10, None, []).1 == Some(0)
            && |q.nodes| == 1 && q.nodes[0].circuit.state.HalfOpen?
            && q.nodes[0].circuit.cfg.TrialCap() == 1 && q.nodes[0].inFlight == 2
  {
    hide Apply, Pools.Select, Node.Failed, Node.Polled;
    var es, p := TwoSelections(), NewPool(LeastConnections, TOLERANT);
    FirstFailure(0);
    var tripped := Fresh().Failed(0, TOLERANT);
    assert Fresh().(inFlight := 0) == Fresh();
    var half := tripped.Polled(10, None, 0);
    EventsAlone(Fresh(), 0);
    EventsAlone(tripped, 10);
    EventsAlone(half, 10);
    EventsAlone(half.Began(), 10);
    SelectAlone(half, 10);
    assert After(p, es, 0) == p;
    assert After(p, es, 1) == Alone(Fresh());
    assert After(p, es, 2) == Alone(tripped);
    assert After(p, es, 3) == Alone(half);
    assert After(p, es, 4) == Alone(half);
    assert After(p, es, 5) == Alone(half);
    assert After(p, es, 6) == Alone(half.Began());
    assert After(p, es, 7) == Alone(half.Began().Began());
  }

  function TrippedWithCall(): seq<Event> {
    [Add(), Begin(0, 0), Failure(0, 0)]
  }

  /** A breaker that trips while a call is out, asked again after its cooldown: a
      selection without a poll admits a second call, though the cap is one; a
      selection after the poll admits none. */
  lemma {:induction false} UnpolledSelectionAdmits()
    ensures var p := After(NewPool(LeastConnections, TOLERANT), TrippedWithCall(), 3);
            && |p.nodes| == 1 && p.nodes[0].circuit.state.Open? && p.nodes[0].circuit.CooledDown(10)
            && p.nodes[0].inFlight == 1 == p.nodes[0].circuit.cfg.TrialCap()
            && Pools.Select(p, 10, None, []).1 == Some(0)
            && Pools.Select(Apply(p, Poll(10)), 10, None, []).1 == None
  {
    hide Apply, Pools.Select, Node.Failed, Node.Polled;
    var es, p := TrippedWithCall(), NewPool(LeastConnections, TOLERANT);
    FirstFailure(1);
    var called := Fresh().(inFlight := 1);
    var tripped := called.Failed(0, TOLERANT);
    EventsAlone(Fresh(), 0);
    EventsAlone(called, 0);
    EventsAlone(tripped, 10);
    SelectAlone(tripped, 10);
    SelectAlone(tripped.Polled(10, None, 0), 10);
    assert After(p, es, 0) == p;
    assert After(p, es, 1) == Alone(Fresh());
    assert After(p, es, 2) == Alone(called);
    assert After(p, es, 3) == Alone(tripped);
  }

  // ---- three backends --------------------------------------------------------

  /** Three backends are added and then, one short of `2^64` times, one is
      selected. */
  ghost function LongRun(): (es: seq<Event>)
    ensures |es| == CURSOR_MODULUS + 2
  {
    [Add(), Add(), Add()] + seq(CURSOR_MODULUS - 1, j => Ask(0))
  }

  function Three(): PoolState {
    NewPool(RoundRobin, TOLERANT).(nodes := [Fresh(), Fresh(), Fresh()])
  }

  lemma {:induction false} ThreeAdded()
    ensures After(NewPool(RoundRobin, TOLERANT), LongRun(), 3) == Three()
  {
    var p, es := NewPool(RoundRobin, TOLERANT), LongRun();
    assert es[0] == es[1] == es[2] == Add();
    assert After(p, es, 0) == p;
    assert After(p, es, 1) == p.(nodes := [Fresh()]);
    assert After(p, es, 2) == p.(nodes := [Fresh(), Fresh()]);
  }

  lemma {:induction false} ThenSelected(k: nat)
    requires k <= CURSOR_MODULUS - 1
    ensures After(NewPool(RoundRobin, TOLERANT), LongRun(), 3 + k) == Selected(Three(), 0, None, [], k)
  {
    hide Pools.Select, Three;
    if k == 0 {
      ThreeAdded();
    } else {
      ThenSelected(k - 1);
      assert LongRun()[3 + (k - 1)] == Ask(0);
    }
  }

  lemma {:induction false} ThreeAvailable(p: PoolState)
    requires p == Three().(rrCursor := p.rrCursor)
    ensures Available(p, 0, []) == [0, 1, 2]
  {
    assert Fresh().IsAvailable(0);
    assert AvailableTo(p.nodes, 0, [], 1) == [0];
    assert AvailableTo(p.nodes, 0, [], 2) == [0, 1];
  }

  /** In that reachable state the next three selections answer the first backend
      twice and the last one not at all, although nothing changes in between. */
  lemma {:induction false} RoundRobinRepeats()
    ensures var p := After(NewPool(RoundRobin, TOLERANT), LongRun(), |LongRun()|);
            && p.rrCursor == U64_MAX && Available(p, 0, []) == [0, 1, 2]
            && Answer(p, 0, None, [], 0) == Some(0)
            && Answer(p, 0, None, [], 1) == Some(0)
            && Answer(p, 0, None, [], 2) == Some(1)
  {
    hide Apply, After, Answer, Selected, Available;
    ThenSelected(CURSOR_MODULUS - 1);
    ThreeAvailable(Three());
    RoundRobinSelections(Three(), 0, None, [], CURSOR_MODULUS - 1);
    var p := Selected(Three(), 0, None, [], CURSOR_MODULUS - 1);
    ThreeAvailable(p);
    RoundRobinSelections(p, 0, None, [], 0);
    RoundRobinSelections(p, 0, None, [], 1);
    RoundRobinSelections(p, 0, None, [], 2);
  }
}
