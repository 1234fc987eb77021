/** src/proxy.rs: the proxy as an object over its pools and its retry budget. */
module ProxyObject {
  import opened Prelude
  import opened Backends
  import opened Retry
  import opened Pools
  import opened PoolLaws
  import opened PoolObject
  import opened Proxying
  import opened ProxyLaws
  import Ops = PoolRuns
  import Mix64

  /** A request that reaches its pool, after it has been counted. */
  ghost function Served(
      s: ProxyState, now: u64, service: Name, key: Option<Mix64.Bytes>,
      upstream: nat -> Reply): (ProxyState, HandleResult)
    requires service in s.pools
  {
    var (f, e) := Landing(Takeoff(Polled(s.pools[service], now), s.budget), now, key, upstream,
                          s.budget.cfg.maxRetriesPerRequest);
    (s.(pools := s.pools[service := f.pool],
        budget := f.budget,
        totalRetries := s.totalRetries + f.retries,
        totalFailovers := s.totalFailovers + f.failovers),
     HandleResult(Some(service), f.selected, ResponseOf(f, e), f.attempts))
  }

  lemma {:induction false} HandledServes(
      s: ProxyState, now: u64, route: Option<Name>, key: Option<Mix64.Bytes>, upstream: nat -> Reply)
    ensures var s' := s.(totalRequests := s.totalRequests + 1, budget := Deposited(s.budget));
            Handled(s, now, route, key, upstream)
            == if route.None? || route.value !in s.pools then (s', HandleResult(route, None, Err(NoRoute), []))
               else Served(s', now, route.value, key, upstream)
  {
    hide Landing, Polled;
  }

  class Proxy {
    var pools: map<Name, Pool>
    const budget: RetryBudget
    var totalRequests: nat
    var totalRetries: nat
    var totalFailovers: nat

    /** Everything a pool of this proxy is made of. */
    ghost function Owned(): set<object>
      reads this, pools.Values
    {
      set n, o | n in pools && o in pools[n].Repr() :: o
    }

    /** Pools share nothing with each other, with the budget or with the proxy,
        and each is in a state some run of pool operations can reach. */
    ghost predicate Valid()
      reads this, budget, pools.Values, Owned()
    {
      Separated() && forall n :: n in pools ==> pools[n].Valid() && Inv(pools[n].View())
    }

    ghost predicate Separated()
      reads this, pools.Values
    {
      && (forall n :: n in pools ==> this !in pools[n].Repr() && budget !in pools[n].Repr())
      && (forall m, n :: m in pools && n in pools && m != n ==> pools[m].Repr() !! pools[n].Repr())
    }

    ghost function View(): (s: ProxyState)
      reads this, budget, pools.Values, Owned()
      ensures s.pools.Keys == pools.Keys && s.budget.cfg == budget.cfg
    {
      ProxyState(map n | n in pools :: pools[n].View(), budget.View(), totalRequests, totalRetries, totalFailovers)
    }

    constructor (retry: RetryConfig)
      ensures Valid() && pools == map[] && fresh(budget)
      ensures View() == ProxyState(map[], NewBudget(retry), 0, 0, 0)
    {
      pools := map[];
      budget := new RetryBudget(retry);
      totalRequests, totalRetries, totalFailovers := 0, 0, 0;
    }

    lemma {:induction false} PoolIsOwned(n: Name)
      requires n in pools
      ensures pools[n].Repr() <= Owned()
    {
    }

    /** Replaces a pool of the same name, if there is one. */
    method AddPool(name: Name, pool: Pool)
      requires Valid() && pool.Valid() && Inv(pool.View())
      requires pool.Repr() !! Owned() && this !in pool.Repr() && budget !in pool.Repr()
      modifies this`pools
      ensures Valid() && pools == old(pools)[name := pool]
      ensures View() == old(View()).(pools := old(View()).pools[name := pool.View()])
    {
      hide Inv, Owned, Separated, Apart, Reprs, Pool.Valid, Pool.View, Pool.Repr, Valid, View;
      ghost var before, reprs := View(), Reprs();
      ViewParts();
      forall n | n in pools ensures pool.Repr() !! reprs[n] {
        PoolIsOwned(n);
      }
      ApartMore(reprs, name, pool.Repr());
      ghost var kept := pools;
      pools := pools[name := pool];
      forall n | n in kept
        ensures kept[n].Repr() == reprs[n] && kept[n].Valid() && kept[n].View() == before.pools[n]
      {
        ApartAt(reprs, n, n);
        assert kept[n] in reprs[n];
        assert kept[n].Repr() == reprs[n];
      }
      Reassemble(before.pools[name := pool.View()], reprs[name := pool.Repr()]);
    }

    /** These parts share nothing with each other, with the budget or with the proxy. */
    ghost predicate Apart(reprs: map<Name, set<object>>) {
      && (forall n :: n in reprs ==> this !in reprs[n] && budget !in reprs[n])
      && (forall m, n :: m in reprs && n in reprs && m != n ==> reprs[m] !! reprs[n])
    }

    lemma {:induction false} ApartAt(reprs: map<Name, set<object>>, m: Name, n: Name)
      requires Apart(reprs) && m in reprs && n in reprs
      ensures this !in reprs[n] && budget !in reprs[n] && (m != n ==> reprs[m] !! reprs[n])
    {
    }

    lemma {:induction false} ApartMore(reprs: map<Name, set<object>>, name: Name, repr: set<object>)
      requires Apart(reprs) && this !in repr && budget !in repr
      requires forall n :: n in reprs ==> repr !! reprs[n]
      ensures Apart(reprs[name := repr])
    {
    }

    /** Count the request and deposit for it. */
    method Admit()
      requires Valid()
      modifies this`totalRequests, budget
      ensures Valid()
      ensures View() == old(View()).(totalRequests := old(View()).totalRequests + 1,
                                     budget := Deposited(old(View()).budget))
      ensures forall n :: n in pools ==> pools[n].Repr() == old(pools[n].Repr())
    {
      hide *;
      CountRequest();
      Deposit();
    }

    method CountRequest()
      requires Valid()
      modifies this`totalRequests
      ensures Valid() && View() == old(View()).(totalRequests := old(View()).totalRequests + 1)
      ensures forall n :: n in pools ==> pools[n].Repr() == old(pools[n].Repr())
    {
      hide Inv, Owned, Pool.Valid, Pool.View, Pool.Repr, RetryBudget.View, Separated, Apart, Reprs, Valid,
           View;
      ghost var before, reprs := View(), Reprs();
      ViewParts();
      totalRequests := totalRequests + 1;
      forall n | n in pools
        ensures pools[n].Repr() == reprs[n] && pools[n].Valid() && pools[n].View() == before.pools[n]
      {
        ApartAt(reprs, n, n);
        assert pools[n] in reprs[n];
        assert pools[n].Repr() == reprs[n];
      }
      Reassemble(before.pools, reprs);
    }

    method Deposit()
      requires Valid()
      modifies budget
      ensures Valid() && View() == old(View()).(budget := Deposited(old(View()).budget))
      ensures forall n :: n in pools ==> pools[n].Repr() == old(pools[n].Repr())
    {
      hide Inv, Owned, Pool.Valid, Pool.View, Pool.Repr, Deposited, RetryBudget.View, Separated, Apart, Reprs, Valid,
           View;
      ghost var before, reprs := View(), Reprs();
      ViewParts();
      assert forall n :: n in pools ==> allocated(pools[n].Repr());
      budget.OnRequest();
      forall n | n in pools
        ensures pools[n].Repr() == reprs[n] && pools[n].Valid() && pools[n].View() == before.pools[n]
      {
        ApartAt(reprs, n, n);
        assert pools[n] in reprs[n];
        assert pools[n].Repr() == reprs[n];
      }
      Reassemble(before.pools, reprs);
    }

    /** Handle one request: `route` is what the router matched, `key` the sticky
        key, `upstream` what each backend would answer. */
    method Handle(
        now: u64, route: Option<Name>, key: Option<Mix64.Bytes>, upstream: nat -> Reply)
      returns (result: HandleResult)
      requires Valid()
      modifies this, budget, Owned()
      ensures Valid() && pools == old(pools)
      ensures (View(), result) == Handled(old(View()), now, route, key, upstream)
    {
      hide *;
      HandledServes(View(), now, route, key, upstream);
      if route.Some? && route.value in pools {
        PoolIsOwned(route.value);
      }
      Admit();
      if route.None? || route.value !in pools {
        return HandleResult(route, None, Err(NoRoute), []);
      }
      result := Route(route.value, now, key, upstream);
    }

    /** The part of a request that concerns the pool it is routed to. */
    method Route(service: Name, now: u64, key: Option<Mix64.Bytes>, upstream: nat -> Reply)
      returns (result: HandleResult)
      requires Valid() && service in pools
      modifies this`totalRetries, this`totalFailovers, budget, pools[service].Repr()
      ensures Valid() && pools == old(pools)
      ensures (View(), result) == Served(old(View()), now, service, key, upstream)
    {
      hide Inv, Owned, Pool.Valid, Pool.View, Pool.Repr, Landing, Takeoff, Polled, ResponseOf, Separated, Apart, Reprs,
           Valid, View, RetryBudget.View;
      ViewParts();
      ApartAt(Reprs(), service, service);
      var selected, response, attempts := ServeApart(service, now, key, upstream);
      result := HandleResult(Some(service), selected, response, attempts);
    }

    /** Serving from one pool leaves the others alone. */
    method ServeApart(service: Name, now: u64, key: Option<Mix64.Bytes>, upstream: nat -> Reply)
      returns (selected: Option<nat>, response: Response, attempts: seq<Attempt>)
      requires Valid() && service in pools
      modifies this`totalRetries, this`totalFailovers, budget, pools[service].Repr()
      ensures Valid() && pools == old(pools)
      ensures var (f, e) := Landing(Takeoff(Polled(old(View()).pools[service], now), old(View()).budget), now, key,
                                    upstream, budget.cfg.maxRetriesPerRequest);
              && View() == ProxyState(old(View()).pools[service := f.pool], f.budget, totalRequests,
                                      old(totalRetries) + f.retries, old(totalFailovers) + f.failovers)
              && selected == f.selected && attempts == f.attempts && response == ResponseOf(f, e)
    {
      hide Inv, Owned, Pool.Valid, Pool.View, Pool.Repr, Landing, Takeoff, Polled, ResponseOf, Separated, Apart, Reprs,
           Valid, View, RetryBudget.View;
      ghost var before, reprs := View(), Reprs();
      ViewParts();
      selected, response, attempts := ServeOnly(service, now, key, upstream, before, reprs);
      Reassemble(before.pools[service := pools[service].View()], reprs);
    }

    method ServeOnly(service: Name, now: u64, key: Option<Mix64.Bytes>, upstream: nat -> Reply,
                     ghost before: ProxyState, ghost reprs: map<Name, set<object>>)
      returns (selected: Option<nat>, response: Response, attempts: seq<Attempt>)
      requires Valid() && service in pools && before == View() && reprs == Reprs()
      modifies this`totalRetries, this`totalFailovers, budget, pools[service].Repr()
      ensures pools == old(pools)
      ensures forall n :: n in pools ==>
                && pools[n].Valid() && pools[n].Repr() == reprs[n]
                && (n != service ==> pools[n].View() == before.pools[n])
      ensures Inv(pools[service].View())
      ensures var (f, e) := Landing(Takeoff(Polled(before.pools[service], now), before.budget), now, key,
                                    upstream, budget.cfg.maxRetriesPerRequest);
              && pools[service].View() == f.pool && budget.View() == f.budget
              && totalRetries == old(totalRetries) + f.retries
              && totalFailovers == old(totalFailovers) + f.failovers
              && selected == f.selected && attempts == f.attempts && response == ResponseOf(f, e)
    {
      hide Inv, Owned, Pool.Valid, Pool.View, Pool.Repr, Landing, Takeoff, Polled, ResponseOf, Separated, Apart, Reprs,
           Valid, View, RetryBudget.View;
      ViewParts();
      assert forall n :: n in pools ==> allocated(pools[n].Repr());
      ApartAt(reprs, service, service);
      selected, response, attempts := PollAndServe(pools[service], now, key, upstream);
      forall n | n in pools && n != service
        ensures pools[n].Repr() == reprs[n] && pools[n].Valid() && pools[n].View() == before.pools[n]
      {
        ApartAt(reprs, service, n);
        assert pools[n].Repr() == reprs[n];
      }
    }

    ghost function Reprs(): (reprs: map<Name, set<object>>)
      reads this, pools.Values
      ensures reprs.Keys == pools.Keys
    {
      map n | n in pools :: pools[n].Repr()
    }

    /** What a valid proxy knows about its parts. */
    lemma {:induction false} ViewParts()
      requires Valid()
      ensures View().budget == budget.View() && View().pools.Keys == pools.Keys
      ensures View() == ProxyState(View().pools, budget.View(), totalRequests, totalRetries, totalFailovers)
      ensures forall n :: n in pools ==>
                && pools[n].Valid() && View().pools[n] == pools[n].View() && Inv(pools[n].View())
                && Reprs()[n] == pools[n].Repr() && pools[n] in Reprs()[n]
      ensures Apart(Reprs())
    {
      hide Inv, Pool.Valid, Pool.View;
    }

    /** And how its parts make it valid again. */
    lemma {:induction false} Reassemble(views: map<Name, PoolState>, reprs: map<Name, set<object>>)
      requires views.Keys == pools.Keys == reprs.Keys
      requires forall n :: n in pools ==>
                 && pools[n].Valid() && pools[n].View() == views[n] && Inv(views[n])
                 && pools[n].Repr() == reprs[n]
      requires Apart(reprs)
      ensures Valid()
      ensures View() == ProxyState(views, budget.View(), totalRequests, totalRetries, totalFailovers)
    {
      hide Inv, Pool.Valid, Pool.View, Pool.Repr;
    }

    method PollAndServe(pool: Pool, now: u64, key: Option<Mix64.Bytes>, upstream: nat -> Reply)
      returns (selected: Option<nat>, response: Response, attempts: seq<Attempt>)
      requires pool.Valid() && Inv(pool.View()) && this !in pool.Repr() && budget !in pool.Repr()
      modifies this`totalRetries, this`totalFailovers, budget, pool.Repr()
      ensures pool.Valid() && Inv(pool.View()) && pool.Repr() == old(pool.Repr())
      ensures var (f, e) := Landing(Takeoff(Polled(old(pool.View()), now), old(budget.View())), now, key, upstream,
                                    budget.cfg.maxRetriesPerRequest);
              && pool.View() == f.pool && budget.View() == f.budget
              && selected == f.selected && attempts == f.attempts && response == ResponseOf(f, e)
              && totalRetries == old(totalRetries) + f.retries
              && totalFailovers == old(totalFailovers) + f.failovers
    {
      hide Inv, Landing, Takeoff, Polled, RetryBudget.View;
      ApplyKeepsInv(pool.View(), Ops.Poll(now));
      pool.Poll(now);
      selected, response, attempts := Serve(pool, now, key, upstream, budget.cfg.maxRetriesPerRequest);
    }

    /** One turn of the loop over attempts. */
    method OneTurn(pool: Pool, now: u64, key: Option<Mix64.Bytes>, upstream: nat -> Reply, maxRetries: nat,
                   tried: seq<nat>, attempts: seq<Attempt>, selected: Option<nat>, ghost f: Flight)
      returns (tried': seq<nat>, attempts': seq<Attempt>, selected': Option<nat>, ending: Option<Ending>)
      requires pool.Valid() && Inv(pool.View()) && this !in pool.Repr() && budget !in pool.Repr()
      requires f == Flight(pool.View(), budget.View(), tried, attempts, selected, f.retries, f.failovers)
      modifies this`totalRetries, this`totalFailovers, budget, pool.Repr()
      ensures pool.Valid() && pool.backends == old(pool.backends)
      ensures var (f', e) := Turn(f, now, key, upstream, maxRetries);
              && ending == e
              && f' == Flight(pool.View(), budget.View(), tried', attempts', selected', f'.retries, f'.failovers)
              && totalRetries == old(totalRetries) + f'.retries - f.retries
              && totalFailovers == old(totalFailovers) + f'.failovers - f.failovers
    {
      hide Inv, Select, Called, Pool.Valid, Pool.View, RetryBudget.View, Retried, Affords, NameOf;
      tried', attempts', selected' := tried, attempts, selected;
      var choice, reply, name := CallNext(pool, now, key, upstream, tried);
      if choice.None? {
        ending := Some(NoBackend);
        return;
      }
      assert pool.Repr() == old(pool.Repr());
      var idx := choice.value;
      if selected.None? {
        selected' := Some(idx);
      }
      var isRetry := tried != [];
      if isRetry {
        totalFailovers := totalFailovers + 1;
        assert pool.Valid();
      }
      attempts' := attempts + [Attempt(idx, name, reply.Answer?, reply.latencyMs, isRetry)];
      match reply {
        case Answer(status, _) =>
          ending := Some(Answered(status));
        case Fault(_) =>
          tried' := tried + [idx];
          if |tried'| > maxRetries {
            ending := Some(GaveUp);
          } else {
            var granted := budget.TryRetry();
            assert pool.Repr() == old(pool.Repr());
            assert pool.Valid();
            if granted {
              totalRetries := totalRetries + 1;
              ending := None;
            } else {
              ending := Some(GaveUp);
            }
          }
      }
    }

    /** The loop over attempts of one routed request. */
    method Serve(pool: Pool, now: u64, key: Option<Mix64.Bytes>, upstream: nat -> Reply, maxRetries: nat)
      returns (selected: Option<nat>, response: Response, attempts: seq<Attempt>)
      requires pool.Valid() && Inv(pool.View()) && this !in pool.Repr() && budget !in pool.Repr()
      modifies this`totalRetries, this`totalFailovers, budget, pool.Repr()
      ensures pool.Valid() && pool.backends == old(pool.backends) && Inv(pool.View())
      ensures var (f, e) := Landing(Takeoff(old(pool.View()), old(budget.View())), now, key, upstream, maxRetries);
              && pool.View() == f.pool && budget.View() == f.budget
              && selected == f.selected && attempts == f.attempts && response == ResponseOf(f, e)
              && totalRetries == old(totalRetries) + f.retries
              && totalFailovers == old(totalFailovers) + f.failovers
    {
      hide Inv, Landing, Turn, Pool.Valid, Pool.View, RetryBudget.View;
      ghost var f := Takeoff(pool.View(), budget.View());
      var tried: seq<nat> := [];
      attempts, selected := [], None;
      while true
        invariant pool.Valid() && pool.backends == old(pool.backends) && Inv(pool.View())
        invariant pool.Repr() == old(pool.Repr()) && |tried| <= maxRetries
        invariant f == Flight(pool.View(), budget.View(), tried, attempts, selected, f.retries, f.failovers)
        invariant totalRetries == old(totalRetries) + f.retries
        invariant totalFailovers == old(totalFailovers) + f.failovers
        invariant Landing(f, now, key, upstream, maxRetries)
                  == Landing(Takeoff(old(pool.View()), old(budget.View())), now, key, upstream, maxRetries)
        decreases maxRetries - |tried|
      {
        LandingTurns(f, now, key, upstream, maxRetries);
        TurnKeepsInv(f, now, key, upstream, maxRetries);
        var ending;
        tried, attempts, selected, ending :=
          OneTurn(pool, now, key, upstream, maxRetries, tried, attempts, selected, f);
        f := Turn(f, now, key, upstream, maxRetries).0;
        match ending {
          case None =>
          case Some(Answered(status)) => return selected, Ok(status), attempts;
          case Some(GaveUp) => return selected, Err(AllAttemptsFailed(|tried|)), attempts;
          case Some(NoBackend) =>
            var error := if attempts == [] then NoHealthyUpstream else AllAttemptsFailed(|tried|);
            return selected, Err(error), attempts;
        }
      }
    }
  }

  /** Select a backend and, if there is one, call it. */
  method CallNext(pool: Pool, now: u64, key: Option<Mix64.Bytes>, upstream: nat -> Reply, tried: seq<nat>)
    returns (choice: Option<nat>, reply: Reply, name: Mix64.Bytes)
    requires pool.Valid() && Inv(pool.View())
    modifies pool.Repr()
    ensures pool.Valid() && pool.backends == old(pool.backends)
    ensures var (p, r) := Pools.Select(old(pool.View()), now, key, tried);
            && choice == r
            && (r.None? ==> pool.View() == p)
            && (r.Some? ==> reply == upstream(r.value) && name == NameOf(p, r.value)
                            && pool.View() == Called(p, now, r.value, reply))
  {
    hide Inv, Select, Called, Views, RampsInRange;
    SelectionSoundAndComplete(pool.View(), now, key, tried);
    Ops.SelectKeepsNodes(pool.View(), now, key, tried);
    choice := pool.Select(now, key, tried);
    reply, name := Fault(0), [];
    if choice.Some? {
      PartsContain(pool.backends, choice.value);
      reply, name := Call(pool, choice.value, now, upstream);
    }
  }

  lemma {:induction false} CalledIs(p: PoolState, idx: nat, now: u64, reply: Reply)
    requires idx < |p.nodes|
    ensures var a := WithNode(p, idx, p.nodes[idx].Began());
            var b := WithNode(a, idx, a.nodes[idx].Ended());
            Called(p, now, idx, reply)
            == match reply
               case Answer(_, latencyMs) => WithNode(b, idx, b.nodes[idx].SucceededIn(now, b.ewma, latencyMs))
               case Fault(_) => WithNode(b, idx, b.nodes[idx].Failed(now, b.health))
  {
    hide Node.Began, Node.Ended, Node.SucceededIn, Node.Failed;
  }

  /** Begin, dispatch, end and record one call. */
  method Call(pool: Pool, idx: nat, now: u64, upstream: nat -> Reply) returns (reply: Reply, name: Mix64.Bytes)
    requires pool.Valid() && idx < |pool.backends|
    modifies pool.backends[idx], pool.backends[idx].breaker
    ensures pool.Valid() && reply == upstream(idx)
    ensures pool.View() == Called(old(pool.View()), now, idx, reply)
    ensures name == old(pool.View()).nodes[idx].name
  {
    hide Node.Began, Node.Ended, Node.SucceededIn, Node.Failed, Views, Called, Ops.Apply;
    CalledIs(pool.View(), idx, now, upstream(idx));
    pool.Begin(idx);
    reply := upstream(idx);
    name := pool.backends[idx].name;
    pool.End(idx);
    match reply {
      case Answer(_, latencyMs) => pool.RecordSuccessLatency(idx, now, latencyMs);
      case Fault(_) => pool.RecordFailure(idx, now);
    }
  }
}
