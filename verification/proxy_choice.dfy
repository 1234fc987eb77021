/** Which backend every attempt of a request goes to. */
module ProxyChoice {
  import opened Prelude
  import opened Backends
  import opened Retry
  import opened Pools
  import opened PoolLaws
  import opened PoolSequences
  import opened PoolSticky
  import HashRing
  import opened Proxying
  import opened ProxyLaws
  import Ops = PoolRuns
  import Mix64

  /** Backend `b` is what the strategy names among the candidates left when the first
      tried were `tried`, in terms of the pool right after the poll: for a key, the
      owner on a ring of those candidates; without one, or under round robin, the
      candidate under the cursor, moved on by one for each attempt before; under least
      connections the first least busy candidate. */
  ghost predicate Named(p: PoolState, now: u64, key: Option<Mix64.Bytes>, tried: seq<nat>, b: nat) {
    var a := Available(p, now, tried);
    && (p.strategy.ConsistentHash? && key.Some? ==>
          Indices(a, |p.nodes|) && Some(b) == FreshOwner(p, a, key.value))
    && (TakesTurns(p, key) ==> a != [] && b == a[Slot(p.rrCursor, |tried|, |a|)])
    && (p.strategy.LeastConnections? ==>
          && b < |p.nodes|
          && (forall i: nat :: Candidate(p.nodes, now, tried, i) ==> p.nodes[b].inFlight <= p.nodes[i].inFlight)
          && (forall i: nat :: i < b && Candidate(p.nodes, now, tried, i)
                ==> p.nodes[b].inFlight < p.nodes[i].inFlight))
  }

  /** Every attempt goes where the strategy says. */
  ghost predicate Guided(p: PoolState, now: u64, key: Option<Mix64.Bytes>, attempts: seq<Attempt>) {
    forall j :: 0 <= j < |attempts| ==> Named(p, now, key, Targets(attempts)[..j], attempts[j].backend)
  }

  // ---- one selection of the loop -------------------------------------------------

  lemma {:induction false} SameLeft(nodes: seq<Node>, nodes': seq<Node>, now: u64, tried: seq<nat>, n: nat)
    requires n <= |nodes| == |nodes'|
    requires forall i: nat :: Candidate(nodes', now, tried, i) <==> Candidate(nodes, now, tried, i)
    ensures AvailableTo(nodes', now, tried, n) == AvailableTo(nodes, now, tried, n)
  {
    hide Candidate;
    if n > 0 {
      SameLeft(nodes, nodes', now, tried, n - 1);
    }
  }

  /** The pool in the loop offers the same candidates, names and loads as right after
      the poll. */
  lemma {:induction false} TrackedLeft(
      p: PoolState, q: PoolState, now: u64, upstream: nat -> Reply, tried: seq<nat>)
    requires PoolTracks(p, q, now, upstream, tried)
    ensures Available(q, now, tried) == Available(p, now, tried)
    ensures forall a :: Indices(a, |p.nodes|) ==> MembersOf(q.nodes, a) == MembersOf(p.nodes, a)
  {
    hide Inv, NodeTracks, AvailableTo, Candidate;
    forall i: nat
      ensures Candidate(q.nodes, now, tried, i) <==> Candidate(p.nodes, now, tried, i)
      ensures i < |p.nodes| ==> q.nodes[i].name == p.nodes[i].name
    {
      if i < |p.nodes| {
        TrackedNode(p, q, now, upstream, tried, i);
      } else {
        NotCandidate(p.nodes, now, tried, i);
        NotCandidate(q.nodes, now, tried, i);
      }
    }
    SameLeft(p.nodes, q.nodes, now, tried, |p.nodes|);
  }

  lemma {:induction false} NotCandidate(nodes: seq<Node>, now: u64, tried: seq<nat>, i: nat)
    requires i >= |nodes|
    ensures !Candidate(nodes, now, tried, i)
  {
  }

  ghost predicate CursorTracks(p: PoolState, q: PoolState, key: Option<Mix64.Bytes>, turns: nat) {
    TakesTurns(p, key) ==> q.rrCursor == (p.rrCursor + turns) % CURSOR_MODULUS
  }

  lemma {:induction false} SelectionNamed(
      p: PoolState, q: PoolState, now: u64, key: Option<Mix64.Bytes>, upstream: nat -> Reply, tried: seq<nat>)
    requires PoolTracks(p, q, now, upstream, tried) && CursorTracks(p, q, key, |tried|)
    ensures var (q', r) := Select(q, now, key, tried);
            r.Some? ==> Named(p, now, key, tried, r.value) && CursorTracks(p, q', key, |tried| + 1)
  {
    hide Inv, Select, NodeTracks, AvailableTo, Candidate, FreshOwner, MembersOf, Slot;
    TrackedLeft(p, q, now, upstream, tried);
    AvailableIsCandidates(p.nodes, now, tried, |p.nodes|);
    SelectionSoundAndComplete(q, now, key, tried);
    if TakesTurns(p, key) && Available(p, now, tried) != [] {
      RoundRobinStep(q, now, key, tried);
      WrapStep(p.rrCursor + |tried|);
      SlotIs(p.rrCursor, |tried|, |Available(p, now, tried)|);
    } else if p.strategy.ConsistentHash? && key.Some? {
      CachedRingAgrees(q, now, key.value, tried);
      SameOwner(p, q, Available(p, now, tried), key.value);
    } else if p.strategy.LeastConnections? {
      SameLoads(p, q, now, upstream, tried);
    }
    NothingLeft(q, now, key, tried);
  }

  lemma {:induction false} NothingLeft(q: PoolState, now: u64, key: Option<Mix64.Bytes>, tried: seq<nat>)
    ensures Available(q, now, tried) == [] ==> Select(q, now, key, tried).1.None?
  {
    hide AvailableTo;
  }

  lemma {:induction false} SlotIs(c: nat, j: nat, n: nat)
    requires n > 0
    ensures Slot(c, j, n) == ((c + j) % CURSOR_MODULUS) % n
  {
  }

  lemma {:induction false} SameOwner(p: PoolState, q: PoolState, a: seq<nat>, key: Mix64.Bytes)
    requires Indices(a, |p.nodes|) && |p.nodes| == |q.nodes| && MembersOf(q.nodes, a) == MembersOf(p.nodes, a)
    ensures FreshOwner(q, a, key) == FreshOwner(p, a, key)
  {
    hide MembersOf, HashRing.Fresh, HashRing.Owner, Mix64.KeyPosition;
  }

  lemma {:induction false} SameLoads(
      p: PoolState, q: PoolState, now: u64, upstream: nat -> Reply, tried: seq<nat>)
    requires PoolTracks(p, q, now, upstream, tried)
    ensures forall i: nat :: Candidate(q.nodes, now, tried, i) <==> Candidate(p.nodes, now, tried, i)
    ensures forall i :: 0 <= i < |p.nodes| ==> q.nodes[i].inFlight == p.nodes[i].inFlight
    ensures forall i: nat :: Candidate(p.nodes, now, tried, i) ==> i < |p.nodes|
  {
    hide Inv, NodeTracks;
    forall i: nat
      ensures Candidate(q.nodes, now, tried, i) <==> Candidate(p.nodes, now, tried, i)
      ensures i < |p.nodes| ==> q.nodes[i].inFlight == p.nodes[i].inFlight
    {
      if i < |p.nodes| {
        TrackedNode(p, q, now, upstream, tried, i);
      }
    }
  }

  // ---- the loop --------------------------------------------------------------------

  lemma {:induction false} CalledKeepsCursor(p: PoolState, now: u64, idx: nat, reply: Reply)
    requires idx < |p.nodes|
    ensures Called(p, now, idx, reply).rrCursor == p.rrCursor
  {
    hide Called, Recorded;
    CallRecords(p, now, idx, reply);
  }

  lemma {:induction false} TurnGuided(
      p: PoolState, b: Budget, now: u64, key: Option<Mix64.Bytes>, upstream: nat -> Reply, maxRetries: nat, f: Flight)
    requires Serving(p, b, now, upstream, f)
    requires Guided(p, now, key, f.attempts) && CursorTracks(p, f.pool, key, |f.tried|)
    ensures var (f', ending) := Turn(f, now, key, upstream, maxRetries);
            && Guided(p, now, key, f'.attempts)
            && (ending.None? ==> CursorTracks(p, f'.pool, key, |f'.tried|))
  {
    hide Select, Called, Named, PoolTracks, ServedSum, Eligible, CursorTracks;
    SelectionNamed(p, f.pool, now, key, upstream, f.tried);
    SelectTracks(p, f.pool, f.tried, now, key, upstream);
    var (pool, choice) := Select(f.pool, now, key, f.tried);
    if choice.Some? {
      var idx := choice.value;
      var f' := Tried(f, pool, now, idx, upstream(idx));
      assert Targets(f.attempts) == f.tried;
      Extends(p, now, key, f.attempts, f'.attempts[|f.attempts|]);
      SameCursor(p, pool, now, key, upstream, f.tried, idx);
    }
  }

  lemma {:induction false} SameCursor(
      p: PoolState, pool: PoolState, now: u64, key: Option<Mix64.Bytes>, upstream: nat -> Reply, tried: seq<nat>,
      idx: nat)
    requires PoolTracks(p, pool, now, upstream, tried) && Eligible(p, now, tried, idx)
    ensures CursorTracks(p, Called(pool, now, idx, upstream(idx)), key, |tried| + 1)
            <==> CursorTracks(p, pool, key, |tried| + 1)
  {
    hide Inv, NodeTracks, Called;
    CalledKeepsCursor(pool, now, idx, upstream(idx));
  }

  lemma {:induction false} Extends(
      p: PoolState, now: u64, key: Option<Mix64.Bytes>, attempts: seq<Attempt>, next: Attempt)
    requires Guided(p, now, key, attempts) && Named(p, now, key, Targets(attempts), next.backend)
    ensures Guided(p, now, key, attempts + [next])
  {
    hide Named;
    var all := attempts + [next];
    forall j | 0 <= j < |all| ensures Named(p, now, key, Targets(all)[..j], all[j].backend) {
      if j < |attempts| {
        assert Targets(all)[..j] == Targets(attempts)[..j];
      } else {
        assert Targets(all)[..j] == Targets(attempts);
      }
    }
  }

  lemma {:induction false} LandingGuided(
      p: PoolState, b: Budget, now: u64, key: Option<Mix64.Bytes>, upstream: nat -> Reply, maxRetries: nat, f: Flight)
    requires Serving(p, b, now, upstream, f) && |f.tried| <= maxRetries
    requires Guided(p, now, key, f.attempts) && CursorTracks(p, f.pool, key, |f.tried|)
    ensures Guided(p, now, key, Landing(f, now, key, upstream, maxRetries).0.attempts)
    decreases maxRetries - |f.tried|
  {
    hide Turn, Serving, Landed, Guided, CursorTracks;
    TurnGuided(p, b, now, key, upstream, maxRetries, f);
    TurnLands(p, b, now, key, upstream, maxRetries, f);
    TurnAdvances(f, now, key, upstream, maxRetries);
    var (f', ending) := Turn(f, now, key, upstream, maxRetries);
    if ending.None? {
      LandingGuided(p, b, now, key, upstream, maxRetries, f');
    }
  }

  /** Every attempt of a request, the first and each failover, goes to the backend its
      strategy names among those available right after the poll and not yet tried; in
      particular a sticky key goes to its owner, and after a failure to its owner among
      the rest. */
  lemma {:induction false} AttemptsGuided(
      s: ProxyState, now: u64, service: Name, key: Option<Mix64.Bytes>, upstream: nat -> Reply)
    requires service in s.pools && Inv(s.pools[service])
    ensures Guided(Polled(s.pools[service], now), now, key,
                   Handled(s, now, Some(service), key, upstream).1.attempts)
  {
    hide Inv, Serving, Landing, Named, Polled;
    var p, b := Polled(s.pools[service], now), Deposited(s.budget);
    ApplyKeepsInv(s.pools[service], Ops.Poll(now));
    assert Ops.Apply(s.pools[service], Ops.Poll(now)) == p;
    TakeoffServes(p, b, now, upstream);
    CursorInRange(p);
    LandingGuided(p, b, now, key, upstream, s.budget.cfg.maxRetriesPerRequest, Takeoff(p, b));
  }

  lemma {:induction false} CursorInRange(p: PoolState)
    requires Inv(p)
    ensures p.rrCursor % CURSOR_MODULUS == p.rrCursor
  {
    hide RampsInRange, Balanced, CacheAgrees;
  }
}
