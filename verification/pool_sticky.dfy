/** Sticky sessions: what the cached ring of a pool answers, and when a key may
    move between two moments of a run. */
module PoolSticky {
  import opened Prelude
  import opened Ewma
  import opened Breaker
  import opened Backends
  import opened HashRing
  import opened Pools
  import opened PoolRuns
  import opened PoolLaws
  import Mix64
  import Runs = BackendRuns

  /** Where a freshly built ring over the candidates would send the key. */
  function FreshOwner(p: PoolState, a: seq<nat>, key: Mix64.Bytes): Option<nat>
    requires Indices(a, |p.nodes|)
  {
    Owner(Fresh(MembersOf(p.nodes, a), VNODES), Mix64.KeyPosition(key))
  }

  /** Cache agreement: in every reachable state a keyed selection of the
      consistent hash strategy answers what a ring freshly built from the current
      candidates would answer; the answer is a candidate, and the fallback to the
      first candidate is never what decides. The cursor of the selections without a
      key stays where it is. */
  lemma {:induction false} CachedRingAgrees(p: PoolState, now: u64, key: Mix64.Bytes, exclude: seq<nat>)
    requires Inv(p) && p.strategy.ConsistentHash?
    ensures Indices(Available(p, now, exclude), |p.nodes|)
    ensures var a, r := Available(p, now, exclude), Pools.Select(p, now, Some(key), exclude).1;
            && (a == [] <==> r.None?)
            && Pools.Select(p, now, Some(key), exclude).0.rrCursor == p.rrCursor
            && (a != [] ==> FreshOwner(p, a, key).Some? && r == FreshOwner(p, a, key) && r.value in a)
  {
    hide Mix64.KeyPosition, Balanced, RampsInRange, Fresh, Owner, AvailableTo, WeightedPick, LeastBusyTo, MembersOf;
    AvailableIsCandidates(p.nodes, now, exclude, |p.nodes|);
    var a := Available(p, now, exclude);
    if a != [] {
      HashOwnerIsCandidate(p, a, key);
    }
  }

  /** A pool with one candidate keeps a ring of 160 positions, all its own. */
  lemma {:induction false} OneCandidateRing(p: PoolState, now: u64, key: Mix64.Bytes, exclude: seq<nat>, i: nat)
    requires Inv(p) && p.strategy.ConsistentHash? && Available(p, now, exclude) == [i]
    ensures i < |p.nodes|
    ensures var ring := Pools.Select(p, now, Some(key), exclude).0.ring;
            |ring| == 160 && forall q :: q in ring ==> ring[q] == i
  {
    hide Mix64.KeyPosition, Mix64.VirtualNode, Balanced, RampsInRange, Owner, AvailableTo, WeightedPick, LeastBusyTo,
         Fresh;
    AvailableIsCandidates(p.nodes, now, exclude, |p.nodes|);
    assert Available(p, now, exclude)[0] == i;
    var m := Member(i, p.nodes[i].name);
    assert MembersOf(p.nodes, [i]) == [m];
    assert Recached(p, [i]).ring == Fresh([m], VNODES);
    OneMemberSize(m, VNODES);
    forall q | q in Fresh([m], VNODES) ensures Fresh([m], VNODES)[q] == i {
      OwnedByMember(m, q);
    }
  }

  lemma {:induction false} OwnedByMember(m: Member, q: nat)
    requires q in Fresh([m], VNODES)
    ensures Fresh([m], VNODES)[q] == m.id
  {
    BuiltContents([m], VNODES, 1, q);
  }

  // ---- candidate lists as sublists -----------------------------------------

  ghost predicate Subset(a: seq<nat>, b: seq<nat>) {
    forall i :: i in a ==> i in b
  }

  ghost function PlaceOf(b: seq<nat>, x: nat): (k: nat)
    requires x in b
    ensures k < |b| && b[k] == x
  {
    var k: nat :| k < |b| && b[k] == x;
    k
  }

  ghost function Embedding(a: seq<nat>, b: seq<nat>): (at: seq<nat>)
    requires Subset(a, b)
    ensures |at| == |a|
  {
    seq(|a|, i requires 0 <= i < |a| => PlaceOf(b, a[i]))
  }

  ghost predicate NamesAgree(nodes: seq<Node>, nodes': seq<Node>) {
    forall i :: 0 <= i < |nodes| && i < |nodes'| ==> nodes[i].name == nodes'[i].name
  }

  lemma {:induction false} CandidatesEmbed(nodes: seq<Node>, nodes': seq<Node>, a: seq<nat>, b: seq<nat>)
    requires Increasing(a) && Increasing(b) && Subset(a, b)
    requires Indices(a, |nodes|) && Indices(b, |nodes'|) && NamesAgree(nodes, nodes')
    ensures Sublist(MembersOf(nodes, a), MembersOf(nodes', b), Embedding(a, b))
    ensures DistinctIds(MembersOf(nodes', b))
  {
    var at := Embedding(a, b);
    forall i | 0 <= i < |a| ensures at[i] < |b| && b[at[i]] == a[i] && a[i] < |nodes'| {
      assert a[i] in a;
    }
    forall i, j | 0 <= i < j < |a| ensures at[i] < at[j] {
      IncreasingReflects(b, at[i], at[j]);
    }
  }

  lemma {:induction false} HasIdInList(nodes: seq<Node>, a: seq<nat>, id: nat)
    requires Indices(a, |nodes|)
    ensures HasId(MembersOf(nodes, a), id) <==> id in a
  {
    if id in a {
      var i :| 0 <= i < |a| && a[i] == id;
      assert MembersOf(nodes, a)[i].id == id;
    }
  }

  /** The answer for a key over fewer candidates equals its answer over more
      exactly when the latter is still among the fewer. */
  lemma {:induction false} FreshOwnerRemap(p: PoolState, p': PoolState, a: seq<nat>, b: seq<nat>, key: Mix64.Bytes)
    requires Increasing(a) && Increasing(b) && Subset(a, b) && b != []
    requires Indices(a, |p.nodes|) && Indices(b, |p'.nodes|) && NamesAgree(p.nodes, p'.nodes)
    ensures FreshOwner(p', b, key).Some?
    ensures FreshOwner(p, a, key) == FreshOwner(p', b, key) <==> FreshOwner(p', b, key).value in a
  {
    hide Mix64.KeyPosition;
    CandidatesEmbed(p.nodes, p'.nodes, a, b);
    EmptyExactlyWhen(MembersOf(p'.nodes, b), VNODES);
    MinimalRemap(MembersOf(p.nodes, a), MembersOf(p'.nodes, b), Embedding(a, b), VNODES, Mix64.KeyPosition(key));
    HasIdInList(p.nodes, a, FreshOwner(p', b, key).value);
  }

  /** Failover does not disturb other keys: in every reachable state, excluding
      the backends already tried leaves the answer for a key where it was exactly
      when the backend that owned it was not tried. */
  lemma {:induction false} ExclusionMovesOnlyTried(p: PoolState, now: u64, key: Mix64.Bytes, exclude: seq<nat>)
    requires Inv(p) && p.strategy.ConsistentHash? && Available(p, now, []) != []
    ensures var owner, r := Pools.Select(p, now, Some(key), []).1, Pools.Select(p, now, Some(key), exclude).1;
            owner.Some? && (r == owner <==> owner.value !in exclude)
  {
    AvailableIsCandidates(p.nodes, now, [], |p.nodes|);
    AvailableIsCandidates(p.nodes, now, exclude, |p.nodes|);
    CachedRingAgrees(p, now, key, []);
    CachedRingAgrees(p, now, key, exclude);
    var a, b := Available(p, now, exclude), Available(p, now, []);
    forall i | i in a ensures i in b {
      assert Candidate(p.nodes, now, [], i);
    }
    FreshOwnerRemap(p, p, a, b, key);
    var owner := FreshOwner(p, b, key).value;
    assert Candidate(p.nodes, now, [], owner);
    assert owner in a <==> owner !in exclude;
  }

  // ---- two moments of one run ------------------------------------------------

  lemma {:induction false} NamesKept(p: PoolState, e: Event)
    ensures |p.nodes| <= |Apply(p, e).nodes| && NamesAgree(p.nodes, Apply(p, e).nodes)
  {
    forall i | 0 <= i < |p.nodes|
      ensures |Apply(p, e).nodes| >= |p.nodes| && Apply(p, e).nodes[i].name == p.nodes[i].name
    {
      ApplyIsSeen(p, e, i);
      SeenKeepsName(p.nodes[i], Seen(p, e, i));
    }
  }

  lemma {:induction false} SeenKeepsName(n: Node, e: Runs.Event)
    ensures Runs.Apply(n, e).name == n.name
  {
    hide Node.Polled, Circuit.Succeeded, Circuit.Failed, EwmaConfig.Fold;
    if e.Poll? {
      PollKeeps(n, e.now, e.ewma, e.line);
    }
  }

  lemma {:induction false} NamesKeptOverRun(p: PoolState, es: seq<Event>, i: nat, k: nat)
    requires i <= k <= |es|
    ensures |After(p, es, i).nodes| <= |After(p, es, k).nodes|
    ensures NamesAgree(After(p, es, i).nodes, After(p, es, k).nodes)
    decreases k
  {
    hide Apply;
    if i < k {
      NamesKeptOverRun(p, es, i, k - 1);
      NamesKept(After(p, es, k - 1), es[k - 1]);
    }
  }

  /** Minimal remapping over time: take any two moments of any run at which the
      pool is asked for a key. If the candidates at one moment (`few`) are all
      candidates at the other (`many`), the two answers agree exactly when the
      answer over the larger set is a candidate in the smaller. So backends that
      leave, by ejection, probe, breaker or exclusion, take only their own keys
      with them, and backends that come back or join take keys only to
      themselves. */
  lemma {:induction false} KeysMoveOnlyWithOwner(
      strategy: Strategy, health: HealthConfig, es: seq<Event>, few: nat, many: nat,
      now: u64, now': u64, key: Mix64.Bytes, exclude: seq<nat>, exclude': seq<nat>)
    requires few <= |es| && many <= |es|
    requires After(NewPool(strategy, health), es, few).strategy.ConsistentHash?
    requires After(NewPool(strategy, health), es, many).strategy.ConsistentHash?
    requires var p, p' := After(NewPool(strategy, health), es, few), After(NewPool(strategy, health), es, many);
             var a, b := Available(p, now, exclude), Available(p', now', exclude');
             Subset(a, b) && b != []
    ensures var p, p' := After(NewPool(strategy, health), es, few), After(NewPool(strategy, health), es, many);
            var r, r' := Pools.Select(p, now, Some(key), exclude).1, Pools.Select(p', now', Some(key), exclude').1;
            r'.Some? && (r == r' <==> r'.value in Available(p, now, exclude))
  {
    hide Apply, Inv;
    var start := NewPool(strategy, health);
    var p, p' := After(start, es, few), After(start, es, many);
    EveryReachableState(strategy, health, es, few);
    EveryReachableState(strategy, health, es, many);
    if few <= many {
      NamesKeptOverRun(start, es, few, many);
    } else {
      NamesKeptOverRun(start, es, many, few);
    }
    KeyRemap(p, p', now, now', key, exclude, exclude');
  }

  lemma {:induction false} KeyRemap(
      p: PoolState, p': PoolState, now: u64, now': u64, key: Mix64.Bytes, exclude: seq<nat>,
      exclude': seq<nat>)
    requires Inv(p) && Inv(p') && p.strategy.ConsistentHash? && p'.strategy.ConsistentHash?
    requires NamesAgree(p.nodes, p'.nodes)
    requires Subset(Available(p, now, exclude), Available(p', now', exclude')) && Available(p', now', exclude') != []
    ensures var r, r' := Pools.Select(p, now, Some(key), exclude).1, Pools.Select(p', now', Some(key), exclude').1;
            r'.Some? && (r == r' <==> r'.value in Available(p, now, exclude))
  {
    hide Inv, FreshOwner;
    var a, b := Available(p, now, exclude), Available(p', now', exclude');
    AvailableIsCandidates(p.nodes, now, exclude, |p.nodes|);
    AvailableIsCandidates(p'.nodes, now', exclude', |p'.nodes|);
    CachedRingAgrees(p, now, key, exclude);
    CachedRingAgrees(p', now', key, exclude');
    FreshOwnerRemap(p, p', a, b, key);
  }
}
