/** What the router answers, by position in its configuration. */
module RouterRules {
  import opened Wrappers
  import opened Router
  import opened RouterTheorems

  /** The place of a rule: strategy `s`, rule `r`. */
  datatype Place = Place(s: nat, r: nat)

  predicate Exists(strategies: seq<Strategy>, p: Place) {
    p.s < |strategies| && p.r < |strategies[p.s].rules|
  }

  predicate Precedes(p: Place, q: Place) { p.s < q.s || (p.s == q.s && p.r < q.r) }

  function BackendAt(strategies: seq<Strategy>, p: Place): Name
    requires Exists(strategies, p)
  {
    strategies[p.s].rules[p.r].backend
  }

  // ------------------------------------------------ the rule that claims a request

  /** The strategy's name, the request's field and the rule's field agree, and the backend is registered. */
  predicate Claims(registry: set<Name>, strategies: seq<Strategy>, req: Request, p: Place) {
    Exists(strategies, p) &&
    var name, rule := strategies[p.s].name, strategies[p.s].rules[p.r];
    && rule.backend in registry
    && ((name == "template-routing" && req.template != "" && rule.template == req.template)
        || (name == "template-based" && req.template != "" && rule.template == req.template)
        || (name == "tenant-static" && req.tenant != "" && rule.tenant == req.tenant))
  }

  /** `p` is the first place that claims the request. */
  ghost predicate FirstClaim(registry: set<Name>, strategies: seq<Strategy>, req: Request, p: Place) {
    Claims(registry, strategies, req, p) && forall q :: Claims(registry, strategies, req, q) ==> !Precedes(q, p)
  }

  lemma {:induction false} RuleAt(registry: set<Name>, s: Strategy, rules: seq<Rule>, req: Request)
    returns (k: nat)
    ensures k <= |rules| && forall j :: 0 <= j < k ==> !Matches(registry, s, rules[j], req)
    ensures FirstRule(registry, s, rules, req) ==
      if k < |rules| then Some(rules[k].backend) else None
    ensures k < |rules| ==> Matches(registry, s, rules[k], req)
    decreases |rules|
  {
    k := 0;
    if rules != [] && !Matches(registry, s, rules[0], req) {
      k := RuleAt(registry, s, rules[1..], req);
      k := k + 1;
    }
  }

  /** The claim found: its place, or that there is none. */
  lemma {:induction false} StrategyAt(registry: set<Name>, strategies: seq<Strategy>, req: Request)
    returns (p: Option<Place>)
    ensures p.None? ==> forall q :: !Claims(registry, strategies, req, q)
    ensures p.Some? ==> FirstClaim(registry, strategies, req, p.value)
    ensures FirstStrategy(registry, strategies, req) ==
      match p case None => None case Some(p) => Some(BackendAt(strategies, p))
    decreases |strategies|
  {
    if strategies == [] {
      return None;
    }
    var s, rest := strategies[0], strategies[1..];
    var k := RuleAt(registry, s, s.rules, req);
    if k < |s.rules| {
      p := Some(Place(0, k));
      assert Claims(registry, strategies, req, Place(0, k));
      forall q | Claims(registry, strategies, req, q) ensures !Precedes(q, Place(0, k)) {
        if q.s == 0 { assert Matches(registry, s, s.rules[q.r], req); }
      }
    } else {
      var found := StrategyAt(registry, rest, req);
      forall q | Claims(registry, strategies, req, q)
        ensures q.s > 0 && Claims(registry, rest, req, Place(q.s - 1, q.r))
      {
        if q.s == 0 { assert Matches(registry, s, s.rules[q.r], req); }
      }
      match found {
        case None => p := None;
        case Some(f) =>
          p := Some(Place(f.s + 1, f.r));
          forall q | Claims(registry, strategies, req, q) ensures !Precedes(q, Place(f.s + 1, f.r)) {
            assert !Precedes(Place(q.s - 1, q.r), f);
          }
      }
    }
  }

  lemma FirstClaimUnique(registry: set<Name>, strategies: seq<Strategy>, req: Request, p: Place, q: Place)
    requires FirstClaim(registry, strategies, req, p) && FirstClaim(registry, strategies, req, q)
    ensures p == q
  {
    assert !Precedes(p, q) && !Precedes(q, p);
  }

  /** A backend is taken to be healthy unless a record says otherwise. */
  predicate Healthy(status: map<Name, Health>, b: Name) { b in status ==> status[b].healthy }

  /** The first rule that claims a request answers it, when its backend is healthy, and also when it is not and
      failover is off; the round-robin counter stays. */
  lemma ClaimAnswers(cfg: Config, registry: set<Name>, status: map<Name, Health>, counter: nat, listed: seq<Name>,
                     req: Request, p: Place)
    requires FirstClaim(registry, cfg.strategies, req, p)
    ensures
      var b := BackendAt(cfg.strategies, p);
      Healthy(status, b) || !cfg.failover ==> Select(cfg, registry, status, counter, listed, req) == (Ok(b), counter)
  {
    var found := StrategyAt(registry, cfg.strategies, req);
    if found.Some? { FirstClaimUnique(registry, cfg.strategies, req, p, found.value); }
  }

  // ------------------------------------------------ the chain

  /** The backend at index `i` is the first of the list that is registered and healthy. */
  predicate FirstGood(registry: set<Name>, status: map<Name, Health>, names: seq<Name>, i: nat) {
    && i < |names| && names[i] in registry && Healthy(status, names[i])
    && forall j :: 0 <= j < i ==> !(names[j] in registry && Healthy(status, names[j]))
  }

  lemma {:induction false} UsableAt(registry: set<Name>, status: map<Name, Health>, names: seq<Name>) returns (i: nat)
    ensures i <= |names|
    ensures forall j :: 0 <= j < i ==> !(names[j] in registry && Healthy(status, names[j]))
    ensures i < |names| ==> FirstGood(registry, status, names, i)
    ensures FirstUsable(registry, status, names) == if i < |names| then Some(names[i]) else None
    decreases |names|
  {
    i := 0;
    if names != [] && !Usable(registry, status, names[0]) {
      i := UsableAt(registry, status, names[1..]);
      i := i + 1;
    }
  }

  /** The failover chain: the configured one, or all backends in the order they are listed. */
  function ChainOf(cfg: Config, listed: seq<Name>): seq<Name> { if |cfg.chain| > 0 then cfg.chain else listed }

  /** What the chain answers: its first good backend, else its first, else nothing. */
  ghost predicate ChainAnswers(cfg: Config, registry: set<Name>, status: map<Name, Health>, listed: seq<Name>,
                               r: Result<Name, NoBackend>)
  {
    var chain := ChainOf(cfg, listed);
    && (forall i: nat :: FirstGood(registry, status, chain, i) ==> r == Ok(chain[i]))
    && ((forall i: nat :: !FirstGood(registry, status, chain, i)) ==>
          r == if |chain| > 0 then Ok(chain[0]) else Err(NoBackend))
  }

  lemma FailoverAnswers(cfg: Config, registry: set<Name>, status: map<Name, Health>, listed: seq<Name>)
    ensures ChainAnswers(cfg, registry, status, listed, Failover(cfg, registry, status, listed))
  {
    var chain := ChainOf(cfg, listed);
    var i := UsableAt(registry, status, chain);
    forall k: nat | FirstGood(registry, status, chain, k) ensures k == i {
    }
  }

  /** The chain answers a claimed request whose backend is unhealthy, when failover is on. */
  lemma UnhealthyClaimFailsOver(cfg: Config, registry: set<Name>, status: map<Name, Health>, counter: nat,
                                listed: seq<Name>, req: Request, p: Place)
    requires FirstClaim(registry, cfg.strategies, req, p)
    requires cfg.failover && !Healthy(status, BackendAt(cfg.strategies, p))
    ensures
      var r := Select(cfg, registry, status, counter, listed, req);
      r.1 == counter && ChainAnswers(cfg, registry, status, listed, r.0)
  {
    var found := StrategyAt(registry, cfg.strategies, req);
    if found.Some? { FirstClaimUnique(registry, cfg.strategies, req, p, found.value); }
    FailoverAnswers(cfg, registry, status, listed);
  }

  // ------------------------------------------------ the slots of the weighted strategies

  /** A rule of a weighted strategy whose backend is healthy and registered. */
  predicate Eligible(registry: set<Name>, status: map<Name, Health>, strategies: seq<Strategy>, p: Place) {
    && Exists(strategies, p) && strategies[p.s].name == "weighted"
    && BackendAt(strategies, p) in registry && Healthy(status, BackendAt(strategies, p))
  }

  /** `ks` are exactly the indices of usable rules, in order. */
  predicate UsableIndices(registry: set<Name>, status: map<Name, Health>, rules: seq<Rule>, ks: seq<nat>) {
    && (forall i :: 0 <= i < |ks| ==> ks[i] < |rules| && Usable(registry, status, rules[ks[i]].backend))
    && (forall i, j :: 0 <= i < j < |ks| ==> ks[i] < ks[j])
    && (forall k :: 0 <= k < |rules| && Usable(registry, status, rules[k].backend) ==> k in ks)
  }

  predicate NamesAt(rules: seq<Rule>, ks: seq<nat>, names: seq<Name>) {
    |ks| == |names| && forall i :: 0 <= i < |ks| ==> ks[i] < |rules| && names[i] == rules[ks[i]].backend
  }

  lemma ShiftIndices(registry: set<Name>, status: map<Name, Health>, rules: seq<Rule>, rest: seq<nat>,
                     names: seq<Name>) returns (ks: seq<nat>)
    requires rules != [] && UsableIndices(registry, status, rules[1..], rest) && NamesAt(rules[1..], rest, names)
    ensures |ks| == |rest| && NamesAt(rules, ks, names)
    ensures forall i :: 0 <= i < |ks| ==> 0 < ks[i] && Usable(registry, status, rules[ks[i]].backend)
    ensures forall i, j :: 0 <= i < j < |ks| ==> ks[i] < ks[j]
    ensures forall k :: 0 < k < |rules| && Usable(registry, status, rules[k].backend) ==> k in ks
  {
    ks := seq(|rest|, i requires 0 <= i < |rest| => rest[i] + 1);
    forall k | 0 < k < |rules| && Usable(registry, status, rules[k].backend) ensures k in ks {
      assert rules[1..][k - 1] == rules[k];
      var i :| 0 <= i < |rest| && rest[i] == k - 1;
      assert ks[i] == k;
    }
  }

  lemma {:induction false} RuleIndices(registry: set<Name>, status: map<Name, Health>, rules: seq<Rule>)
    returns (ks: seq<nat>)
    ensures UsableIndices(registry, status, rules, ks) && NamesAt(rules, ks, UsableRules(registry, status, rules))
    decreases |rules|
  {
    ks := [];
    if rules != [] {
      var names := UsableRules(registry, status, rules[1..]);
      ks := RuleIndices(registry, status, rules[1..]);
      ks := ShiftIndices(registry, status, rules, ks, names);
      if Usable(registry, status, rules[0].backend) {
        ConsIndices(registry, status, rules, ks, names);
        ks := [0] + ks;
      } else {
        assert UsableRules(registry, status, rules) == [] + names == names;
      }
    }
  }

  lemma ConsIndices(registry: set<Name>, status: map<Name, Health>, rules: seq<Rule>, ks: seq<nat>, names: seq<Name>)
    requires rules != [] && Usable(registry, status, rules[0].backend) && NamesAt(rules, ks, names)
    requires forall i :: 0 <= i < |ks| ==> 0 < ks[i] && Usable(registry, status, rules[ks[i]].backend)
    requires forall i, j :: 0 <= i < j < |ks| ==> ks[i] < ks[j]
    requires forall k :: 0 < k < |rules| && Usable(registry, status, rules[k].backend) ==> k in ks
    ensures UsableIndices(registry, status, rules, [0] + ks) && NamesAt(rules, [0] + ks, [rules[0].backend] + names)
  {
    var all := [0] + ks;
    forall k | 0 <= k < |rules| && Usable(registry, status, rules[k].backend) ensures k in all {
      if k > 0 {
        var i :| 0 <= i < |ks| && ks[i] == k;
        assert all[i + 1] == k;
      } else {
        assert all[0] == k;
      }
    }
  }

  /** The places from strategy `from` on that are eligible, in order, and their backends. */
  ghost predicate Enumerates(registry: set<Name>, status: map<Name, Health>, strategies: seq<Strategy>, from: nat,
                             ps: seq<Place>, names: seq<Name>)
  {
    && |ps| == |names|
    && (forall i :: 0 <= i < |ps| ==>
          Eligible(registry, status, strategies, ps[i]) && from <= ps[i].s && names[i] == BackendAt(strategies, ps[i]))
    && (forall i, j :: 0 <= i < j < |ps| ==> Precedes(ps[i], ps[j]))
    && (forall p :: Eligible(registry, status, strategies, p) && from <= p.s ==> p in ps)
  }

  /** The places of one weighted strategy in front of the later ones. */
  lemma JoinPlaces(registry: set<Name>, status: map<Name, Health>, strategies: seq<Strategy>, from: nat,
                   ks: seq<nat>, rest: seq<Place>, names: seq<Name>, later: seq<Name>) returns (ps: seq<Place>)
    requires from < |strategies| && strategies[from].name == "weighted"
    requires UsableIndices(registry, status, strategies[from].rules, ks) && NamesAt(strategies[from].rules, ks, names)
    requires Enumerates(registry, status, strategies, from + 1, rest, later)
    ensures Enumerates(registry, status, strategies, from, ps, names + later)
  {
    var mine := seq(|ks|, i requires 0 <= i < |ks| => Place(from, ks[i]));
    ps := mine + rest;
    forall p | Eligible(registry, status, strategies, p) && from <= p.s ensures p in ps {
      if p.s == from {
        assert Usable(registry, status, strategies[from].rules[p.r].backend);
        var i :| 0 <= i < |ks| && ks[i] == p.r;
        assert ps[i] == p;
      } else {
        assert p in rest;
      }
    }
  }

  lemma {:induction false} SlotPlacesFrom(registry: set<Name>, status: map<Name, Health>, strategies: seq<Strategy>,
                                          from: nat) returns (ps: seq<Place>)
    requires from <= |strategies|
    ensures Enumerates(registry, status, strategies, from, ps, Slots(registry, status, strategies[from..]))
    decreases |strategies| - from
  {
    ps := [];
    if from < |strategies| {
      var rest := strategies[from..];
      assert rest[0] == strategies[from] && rest[1..] == strategies[from + 1..];
      var later := Slots(registry, status, rest[1..]);
      ps := SlotPlacesFrom(registry, status, strategies, from + 1);
      if strategies[from].name == "weighted" {
        var ks := RuleIndices(registry, status, strategies[from].rules);
        ps := JoinPlaces(registry, status, strategies, from, ks, ps,
                         UsableRules(registry, status, strategies[from].rules), later);
      } else {
        assert [] + later == later;
      }
    }
  }

  /** The slots are the backends of exactly the eligible rules, in the order of the configuration. */
  lemma SlotPlaces(registry: set<Name>, status: map<Name, Health>, strategies: seq<Strategy>) returns (ps: seq<Place>)
    ensures Enumerates(registry, status, strategies, 0, ps, Slots(registry, status, strategies))
  {
    ps := SlotPlacesFrom(registry, status, strategies, 0);
    assert strategies[0..] == strategies;
  }

  // ------------------------------------------------ unclaimed requests

  /** Without a claim: the next slot under the weighted strategy, if there is an eligible rule; else the chain under
      the priority strategy or with failover; else the default backend, if it is registered; else the first listed
      backend that is healthy, else the first listed one, else nothing. */
  lemma UnclaimedAnswers(cfg: Config, registry: set<Name>, status: map<Name, Health>, counter: nat,
                         listed: seq<Name>, req: Request)
    requires forall p :: !Claims(registry, cfg.strategies, req, p)
    ensures
      var r := Select(cfg, registry, status, counter, listed, req);
      var slots := Slots(registry, status, cfg.strategies);
      var weighted := cfg.strategy == "weighted" && exists p :: Eligible(registry, status, cfg.strategies, p);
      && (weighted ==> slots != [] && r == (Ok(slots[SlotFor(r.1, |slots|)]), Bump(counter)))
      && (!weighted ==> r.1 == counter)
      && (!weighted && (cfg.strategy == "priority" || cfg.failover) ==>
            ChainAnswers(cfg, registry, status, listed, r.0))
      && (!weighted && cfg.strategy != "priority" && !cfg.failover ==>
            if cfg.defaultBackend != "" && cfg.defaultBackend in registry then r.0 == Ok(cfg.defaultBackend)
            else ListAnswers(status, listed, r.0))
  {
    var found := StrategyAt(registry, cfg.strategies, req);
    var ps := SlotPlaces(registry, status, cfg.strategies);
    assert Slots(registry, status, cfg.strategies) != [] ==> Eligible(registry, status, cfg.strategies, ps[0]);
    FailoverAnswers(cfg, registry, status, listed);
    FallbackAnswers(cfg, registry, status, listed);
  }

  lemma FallbackAnswers(cfg: Config, registry: set<Name>, status: map<Name, Health>, listed: seq<Name>)
    ensures
      var r := Fallback(cfg, registry, status, listed);
      if cfg.defaultBackend != "" && cfg.defaultBackend in registry then r == Ok(cfg.defaultBackend)
      else ListAnswers(status, listed, r)
  {
    var i := HealthyAt(status, listed);
    if !(cfg.defaultBackend != "" && cfg.defaultBackend in registry) {
      assert ListAnswersAt(status, listed, Fallback(cfg, registry, status, listed), i);
    }
  }

  /** The first healthy name of the list, else its first, else nothing. */
  ghost predicate ListAnswers(status: map<Name, Health>, listed: seq<Name>, r: Result<Name, NoBackend>) {
    exists i: nat :: i <= |listed| && ListAnswersAt(status, listed, r, i)
  }

  predicate ListAnswersAt(status: map<Name, Health>, listed: seq<Name>, r: Result<Name, NoBackend>, i: nat)
    requires i <= |listed|
  {
    && (forall j :: 0 <= j < i ==> !Healthy(status, listed[j]))
    && (if i < |listed| then Healthy(status, listed[i]) && r == Ok(listed[i])
        else r == if |listed| > 0 then Ok(listed[0]) else Err(NoBackend))
  }

  lemma {:induction false} HealthyAt(status: map<Name, Health>, listed: seq<Name>) returns (i: nat)
    ensures i <= |listed| && forall j :: 0 <= j < i ==> !Healthy(status, listed[j])
    ensures i < |listed| ==> Healthy(status, listed[i])
    ensures FirstHealthy(status, listed) == if i < |listed| then Some(listed[i]) else None
    decreases |listed|
  {
    i := 0;
    if listed != [] && !IsHealthy(status, listed[0]) {
      i := HealthyAt(status, listed[1..]);
      i := i + 1;
    }
  }
}
