/** The backend router of internal/routing/router.go. */
module Router {
  import opened Wrappers

  type Name = string

  // ------------------------------------------------ configuration

  datatype Rule = Rule(tenant: string, template: string, backend: Name)
  datatype Strategy = Strategy(name: string, rules: seq<Rule>)
  datatype Config = Config(
    defaultBackend: Name, strategy: string, strategies: seq<Strategy>,
    unhealthyThreshold: int, healthyThreshold: int, failover: bool, chain: seq<Name>)
  datatype Request = Request(tenant: string, template: string)

  // ------------------------------------------------ health

  datatype Health = Health(healthy: bool, fails: int, oks: int)

  function UnhealthyAfter(cfg: Config): int { if cfg.unhealthyThreshold == 0 then 3 else cfg.unhealthyThreshold }
  function HealthyAfter(cfg: Config): int { if cfg.healthyThreshold == 0 then 2 else cfg.healthyThreshold }

  /** What one check does to a backend's record. */
  function Checked(cfg: Config, h: Health, ok: bool): Health {
    if ok then Health(h.healthy || h.oks + 1 >= HealthyAfter(cfg), 0, h.oks + 1)
    else Health(h.healthy && h.fails + 1 < UnhealthyAfter(cfg), h.fails + 1, 0)
  }

  /** The record a check starts from; one for a backend not known yet is made unhealthy. */
  function RecordOf(status: map<Name, Health>, name: Name): Health {
    if name in status then status[name] else Health(false, 0, 0)
  }

  predicate IsHealthy(status: map<Name, Health>, name: Name) {
    name !in status || status[name].healthy
  }

  // ------------------------------------------------ selection

  predicate Usable(registry: set<Name>, status: map<Name, Health>, name: Name) {
    name in registry && IsHealthy(status, name)
  }

  /** Whether a rule of a strategy applies to a request and names a registered backend. */
  predicate Matches(registry: set<Name>, s: Strategy, r: Rule, req: Request) {
    && r.backend in registry
    && ((s.name in {"template-routing", "template-based"} && req.template != "" && r.template == req.template)
        || (s.name == "tenant-static" && req.tenant != "" && r.tenant == req.tenant))
  }

  function FirstRule(registry: set<Name>, s: Strategy, rules: seq<Rule>, req: Request): Option<Name> {
    if rules == [] then None
    else if Matches(registry, s, rules[0], req) then Some(rules[0].backend)
    else FirstRule(registry, s, rules[1..], req)
  }

  function FirstStrategy(registry: set<Name>, strategies: seq<Strategy>, req: Request): Option<Name> {
    if strategies == [] then None
    else
      var hit := FirstRule(registry, strategies[0], strategies[0].rules, req);
      if hit.Some? then hit else FirstStrategy(registry, strategies[1..], req)
  }

  /** The rule slots of weighted strategies whose backend is usable, in order. */
  function Slots(registry: set<Name>, status: map<Name, Health>, strategies: seq<Strategy>): seq<Name> {
    if strategies == [] then []
    else (if strategies[0].name == "weighted" then UsableRules(registry, status, strategies[0].rules) else [])
         + Slots(registry, status, strategies[1..])
  }

  function UsableRules(registry: set<Name>, status: map<Name, Health>, rules: seq<Rule>): seq<Name> {
    if rules == [] then []
    else (if Usable(registry, status, rules[0].backend) then [rules[0].backend] else [])
         + UsableRules(registry, status, rules[1..])
  }

  const TWO_63 := 0x8000_0000_0000_0000
  const TWO_64 := 0x1_0000_0000_0000_0000

  /** int(counter) for a 64-bit counter. */
  function AsInt(counter: nat): int {
    if counter < TWO_63 then counter else counter - TWO_64
  }

  /** Go's remainder. */
  function Remainder(a: int, n: nat): int
    requires n >= 1
  {
    if a >= 0 then a % n else -((-a) % n)
  }

  /** The slot taken when the counter shows `counter`: a negative remainder takes the first. */
  function SlotFor(counter: nat, n: nat): (i: nat)
    requires n >= 1
    ensures i < n
  {
    var idx := Remainder(AsInt(counter), n);
    if idx < 0 then 0 else idx
  }

  function Bump(counter: nat): nat { (counter + 1) % TWO_64 }

  function FirstUsable(registry: set<Name>, status: map<Name, Health>, names: seq<Name>): Option<Name> {
    if names == [] then None
    else if Usable(registry, status, names[0]) then Some(names[0])
    else FirstUsable(registry, status, names[1..])
  }

  function Chain(cfg: Config, listed: seq<Name>): seq<Name> {
    if cfg.chain == [] then listed else cfg.chain
  }

  datatype NoBackend = NoBackend

  function Failover(cfg: Config, registry: set<Name>, status: map<Name, Health>, listed: seq<Name>)
    : Result<Name, NoBackend>
  {
    var chain := Chain(cfg, listed);
    match FirstUsable(registry, status, chain)
    case Some(b) => Ok(b)
    case None => if chain != [] then Ok(chain[0]) else Err(NoBackend)
  }

  /** The first healthy name of a list, registered or not. */
  function FirstHealthy(status: map<Name, Health>, names: seq<Name>): Option<Name> {
    if names == [] then None
    else if IsHealthy(status, names[0]) then Some(names[0])
    else FirstHealthy(status, names[1..])
  }

  /** Default backend, else the first healthy registered one, else any. */
  function Fallback(cfg: Config, registry: set<Name>, status: map<Name, Health>, listed: seq<Name>)
    : Result<Name, NoBackend>
  {
    if cfg.defaultBackend != "" && cfg.defaultBackend in registry then Ok(cfg.defaultBackend)
    else match FirstHealthy(status, listed)
      case Some(b) => Ok(b)
      case None => if listed != [] then Ok(listed[0]) else Err(NoBackend)
  }

  /** SelectBackend: the answer and the round-robin counter afterwards.  `listed` is what the registry lists,
      in the order it does. */
  function Select(cfg: Config, registry: set<Name>, status: map<Name, Health>, counter: nat, listed: seq<Name>,
                  req: Request): (Result<Name, NoBackend>, nat)
  {
    var matched := FirstStrategy(registry, cfg.strategies, req);
    var slots := Slots(registry, status, cfg.strategies);
    if matched.Some? then
      if IsHealthy(status, matched.value) || !cfg.failover then (Ok(matched.value), counter)
      else (Failover(cfg, registry, status, listed), counter)
    else if cfg.strategy == "weighted" && slots != [] then
      (Ok(slots[SlotFor(Bump(counter), |slots|)]), Bump(counter))
    else if cfg.strategy == "priority" || cfg.failover then (Failover(cfg, registry, status, listed), counter)
    else (Fallback(cfg, registry, status, listed), counter)
  }

  // ------------------------------------------------ the code

  class Router {
    const cfg: Config
    var registry: set<Name>
    var healthStatus: map<Name, Health>
    var rrCounter: nat

    ghost predicate Valid()
      reads this
    {
      rrCounter < TWO_64
    }

    constructor (cfg: Config, registry: set<Name>)
      ensures Valid() && this.cfg == cfg && this.registry == registry && rrCounter == 0
      ensures healthStatus == map b | b in registry :: Health(true, 0, 0)
    {
      this.cfg, this.registry, rrCounter := cfg, registry, 0;
      healthStatus := map b | b in registry :: Health(true, 0, 0);
    }

    /** One answer taken into a backend's record. */
    method Record(name: Name, ok: bool)
      modifies this`healthStatus
      ensures healthStatus == old(healthStatus)[name := Checked(cfg, RecordOf(old(healthStatus), name), ok)]
    {
      var bh := if name in healthStatus then healthStatus[name] else Health(false, 0, 0);
      if !ok {
        bh := bh.(fails := bh.fails + 1, oks := 0);
        var threshold := cfg.unhealthyThreshold;
        if threshold == 0 {
          threshold := 3;
        }
        if bh.fails >= threshold {
          bh := bh.(healthy := false);
        }
      } else {
        bh := bh.(oks := bh.oks + 1, fails := 0);
        var threshold := cfg.healthyThreshold;
        if threshold == 0 {
          threshold := 2;
        }
        if bh.oks >= threshold {
          bh := bh.(healthy := true);
        }
      }
      healthStatus := healthStatus[name := bh];
    }

    /** checkAllBackends over the answers the adapters gave, in the order they were asked. */
    method CheckAllBackends(answers: seq<(Name, bool)>)
      requires forall i, j :: 0 <= i < j < |answers| ==> answers[i].0 != answers[j].0
      modifies this`healthStatus
      ensures forall i :: 0 <= i < |answers| ==>
        var (b, ok) := answers[i];
        b in healthStatus && healthStatus[b] == Checked(cfg, RecordOf(old(healthStatus), b), ok)
      ensures forall b :: (forall i :: 0 <= i < |answers| ==> answers[i].0 != b) ==>
        (b in healthStatus <==> b in old(healthStatus))
        && (b in healthStatus ==> healthStatus[b] == old(healthStatus)[b])
    {
      for i := 0 to |answers|
        invariant forall k :: 0 <= k < i ==>
          var (b, ok) := answers[k];
          b in healthStatus && healthStatus[b] == Checked(cfg, RecordOf(old(healthStatus), b), ok)
        invariant forall b :: (forall k :: 0 <= k < i ==> answers[k].0 != b) ==>
          (b in healthStatus <==> b in old(healthStatus))
          && (b in healthStatus ==> healthStatus[b] == old(healthStatus)[b])
      {
        Record(answers[i].0, answers[i].1);
      }
    }

    method TryStrategies(req: Request) returns (r: Option<Name>)
      ensures r == FirstStrategy(registry, cfg.strategies, req)
    {
      for i := 0 to |cfg.strategies|
        invariant FirstStrategy(registry, cfg.strategies, req) == FirstStrategy(registry, cfg.strategies[i..], req)
      {
        var s := cfg.strategies[i];
        for k := 0 to |s.rules|
          invariant FirstRule(registry, s, s.rules, req) == FirstRule(registry, s, s.rules[k..], req)
        {
          if Matches(registry, s, s.rules[k], req) {
            return Some(s.rules[k].backend);
          }
        }
        assert s.rules[|s.rules|..] == [];
        assert cfg.strategies[i..][1..] == cfg.strategies[i + 1..];
      }
      r := None;
    }

    method CollectSlots() returns (backends: seq<Name>)
      ensures backends == Slots(registry, healthStatus, cfg.strategies)
    {
      backends := [];
      for i := 0 to |cfg.strategies|
        invariant Slots(registry, healthStatus, cfg.strategies)
               == backends + Slots(registry, healthStatus, cfg.strategies[i..])
      {
        var s := cfg.strategies[i];
        assert cfg.strategies[i..][1..] == cfg.strategies[i + 1..];
        if s.name == "weighted" {
          ghost var before := backends;
          for k := 0 to |s.rules|
            invariant before + UsableRules(registry, healthStatus, s.rules)
                   == backends + UsableRules(registry, healthStatus, s.rules[k..])
          {
            assert s.rules[k..][1..] == s.rules[k + 1..];
            if Usable(registry, healthStatus, s.rules[k].backend) {
              backends := backends + [s.rules[k].backend];
            }
          }
          assert backends == before + UsableRules(registry, healthStatus, s.rules);
        }
      }
    }

    method TryWeightedRoundRobin() returns (r: Option<Name>)
      requires Valid()
      modifies this`rrCounter
      ensures Valid()
      ensures
        var slots := Slots(registry, healthStatus, cfg.strategies);
        if slots == [] then r == None && rrCounter == old(rrCounter)
        else rrCounter == Bump(old(rrCounter)) && r == Some(slots[SlotFor(rrCounter, |slots|)])
    {
      var backends := CollectSlots();
      if |backends| == 0 {
        return None;
      }
      rrCounter := (rrCounter + 1) % TWO_64;
      var idx := Remainder(AsInt(rrCounter), |backends|);
      ghost var start := idx;
      for i := 0 to |backends|
        invariant idx == start - i && (i > 0 ==> idx >= 0)
      {
        idx := idx - 1;
        if idx < 0 {
          return Some(backends[i]);
        }
      }
      r := Some(backends[0]);
    }

    method TryFailover(listed: seq<Name>) returns (r: Result<Name, NoBackend>)
      ensures r == Failover(cfg, registry, healthStatus, listed)
    {
      var chain := if cfg.chain == [] then listed else cfg.chain;
      for i := 0 to |chain|
        invariant FirstUsable(registry, healthStatus, chain) == FirstUsable(registry, healthStatus, chain[i..])
      {
        if chain[i] in registry && IsHealthy(healthStatus, chain[i]) {
          return Ok(chain[i]);
        }
        assert chain[i..][1..] == chain[i + 1..];
      }
      r := if |chain| > 0 then Ok(chain[0]) else Err(NoBackend);
    }

    method SelectBackend(req: Request, listed: seq<Name>) returns (r: Result<Name, NoBackend>)
      requires Valid()
      modifies this`rrCounter
      ensures Valid()
      ensures (r, rrCounter) == Select(cfg, registry, healthStatus, old(rrCounter), listed, req)
    {
      var matched := TryStrategies(req);
      if matched.Some? {
        if IsHealthy(healthStatus, matched.value) {
          return Ok(matched.value);
        }
        if cfg.failover {
          r := TryFailover(listed);
          return;
        }
        return Ok(matched.value);
      }
      if cfg.strategy == "weighted" {
        var picked := TryWeightedRoundRobin();
        if picked.Some? {
          return Ok(picked.value);
        }
      }
      if cfg.strategy == "priority" || cfg.failover {
        r := TryFailover(listed);
        return;
      }
      if cfg.defaultBackend != "" {
        if cfg.defaultBackend in registry {
          return Ok(cfg.defaultBackend);
        }
      }
      for i := 0 to |listed|
        invariant FirstHealthy(healthStatus, listed) == FirstHealthy(healthStatus, listed[i..])
      {
        if IsHealthy(healthStatus, listed[i]) {
          return Ok(listed[i]);
        }
        assert listed[i..][1..] == listed[i + 1..];
      }
      r := if |listed| > 0 then Ok(listed[0]) else Err(NoBackend);
    }
  }
}
