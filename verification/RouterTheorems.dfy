/** Hysteresis, failover and fairness of the router. */
module RouterTheorems {
  import opened Arithmetic
  import opened Wrappers
  import opened Router

  // ------------------------------------------------ health hysteresis

  /** The record of a backend after a history of checks; `known` at construction or not. */
  function After(cfg: Config, known: bool, history: seq<bool>): Health {
    if history == [] then Health(known, 0, 0)
    else Checked(cfg, After(cfg, known, history[..|history| - 1]), history[|history| - 1])
  }

  /** How many equal answers make a verdict of that kind. */
  function Needed(cfg: Config, ok: bool): (n: int)
    ensures n >= 1
  {
    var t := if ok then cfg.healthyThreshold else cfg.unhealthyThreshold;
    if t == 0 then (if ok then 2 else 3) else if t < 1 then 1 else t
  }

  /** The answers up to and including check `i` end in a streak that reaches its threshold. */
  predicate Verdict(cfg: Config, history: seq<bool>, i: nat)
    requires i < |history|
  {
    && i + 1 >= Needed(cfg, history[i])
    && forall j :: i + 1 - Needed(cfg, history[i]) <= j <= i ==> history[j] == history[i]
  }

  /** The length of the streak at the end. */
  function Streak(history: seq<bool>): nat {
    if |history| <= 1 then |history|
    else if history[|history| - 1] == history[|history| - 2] then Streak(history[..|history| - 1]) + 1
    else 1
  }

  lemma {:induction false} StreakIs(history: seq<bool>)
    requires history != []
    ensures 1 <= Streak(history) <= |history|
    ensures forall j :: |history| - Streak(history) <= j < |history| ==> history[j] == history[|history| - 1]
    ensures Streak(history) < |history| ==> history[|history| - Streak(history) - 1] != history[|history| - 1]
    decreases |history|
  {
    if |history| > 1 {
      var front := history[..|history| - 1];
      StreakIs(front);
    }
  }

  /** The counters count the streak at the end. */
  lemma {:induction false} CountersAreStreak(cfg: Config, known: bool, history: seq<bool>)
    requires history != []
    ensures
      var h := After(cfg, known, history);
      if history[|history| - 1] then h.oks == Streak(history) && h.fails == 0
      else h.fails == Streak(history) && h.oks == 0
    decreases |history|
  {
    var front := history[..|history| - 1];
    if front != [] {
      CountersAreStreak(cfg, known, front);
    }
  }

  lemma VerdictIsStreak(cfg: Config, history: seq<bool>)
    requires history != []
    ensures
      var i := |history| - 1;
      Verdict(cfg, history, i) <==> Streak(history) >= Needed(cfg, history[i])
  {
    StreakIs(history);
    var i := |history| - 1;
    if Streak(history) < Needed(cfg, history[i]) && i + 1 >= Needed(cfg, history[i]) {
      var j := |history| - Streak(history) - 1;
      assert history[j] != history[i];
    }
  }

  /** The last check decides when it is a verdict, and changes nothing when it is not. */
  lemma LastCheck(cfg: Config, known: bool, history: seq<bool>)
    requires history != []
    ensures
      var i := |history| - 1;
      After(cfg, known, history).healthy ==
        if Verdict(cfg, history, i) then history[i] else After(cfg, known, history[..i]).healthy
  {
    CountersAreStreak(cfg, known, history);
    VerdictIsStreak(cfg, history);
  }

  lemma VerdictOfFront(cfg: Config, history: seq<bool>, i: nat)
    requires i < |history| - 1
    ensures Verdict(cfg, history[..|history| - 1], i) == Verdict(cfg, history, i)
  {
    var front := history[..|history| - 1];
    assert forall j :: 0 <= j < |front| ==> front[j] == history[j];
  }

  /** The flag equals the kind of the most recent streak that reached its threshold. */
  lemma {:induction false} LatestVerdictRules(cfg: Config, known: bool, history: seq<bool>, i: nat)
    requires i < |history| && Verdict(cfg, history, i)
    requires forall j :: i < j < |history| ==> !Verdict(cfg, history, j)
    ensures After(cfg, known, history).healthy == history[i]
    decreases |history|
  {
    LastCheck(cfg, known, history);
    if i < |history| - 1 {
      var front := history[..|history| - 1];
      VerdictOfFront(cfg, history, i);
      forall j | i < j < |front| ensures !Verdict(cfg, front, j) {
        VerdictOfFront(cfg, history, j);
      }
      LatestVerdictRules(cfg, known, front, i);
    }
  }

  /** With no such streak so far a backend is still what it started as: healthy when known at construction. */
  lemma {:induction false} NoVerdictKeepsFlag(cfg: Config, known: bool, history: seq<bool>)
    requires forall j :: 0 <= j < |history| ==> !Verdict(cfg, history, j)
    ensures After(cfg, known, history).healthy == known
    decreases |history|
  {
    if history != [] {
      LastCheck(cfg, known, history);
      var front := history[..|history| - 1];
      forall j | 0 <= j < |front| ensures !Verdict(cfg, front, j) {
        VerdictOfFront(cfg, history, j);
      }
      NoVerdictKeepsFlag(cfg, known, front);
    }
  }

  /** The records after a history of checks of one backend. */
  function Records(cfg: Config, status: map<Name, Health>, name: Name, history: seq<bool>): map<Name, Health> {
    if history == [] then status
    else
      var before := Records(cfg, status, name, history[..|history| - 1]);
      before[name := Checked(cfg, RecordOf(before, name), history[|history| - 1])]
  }

  lemma {:induction false} RecordsAre(cfg: Config, registry: set<Name>, name: Name, history: seq<bool>)
    requires history != []
    ensures
      var records := Records(cfg, map b | b in registry :: Health(true, 0, 0), name, history);
      name in records && records[name] == After(cfg, name in registry, history)
    decreases |history|
  {
    if |history| > 1 { RecordsAre(cfg, registry, name, history[..|history| - 1]); }
  }

  predicate LatestVerdict(cfg: Config, history: seq<bool>, i: nat)
    requires i < |history|
  {
    Verdict(cfg, history, i) && forall j :: i < j < |history| ==> !Verdict(cfg, history, j)
  }

  /** Health over any history of checks, by position: a backend that was never checked counts as healthy; with no
      streak so far that reached its threshold, one counts as healthy exactly when it was registered at
      construction; and else the latest such streak decides. */
  lemma HealthByHistory(cfg: Config, registry: set<Name>, name: Name, history: seq<bool>)
    ensures
      var healthy := IsHealthy(Records(cfg, map b | b in registry :: Health(true, 0, 0), name, history), name);
      && (history == [] ==> healthy)
      && (history != [] && (forall j :: 0 <= j < |history| ==> !Verdict(cfg, history, j)) ==>
           healthy == (name in registry))
      && (forall i :: 0 <= i < |history| && LatestVerdict(cfg, history, i) ==> healthy == history[i])
  {
    var known := name in registry;
    if history != [] {
      RecordsAre(cfg, registry, name, history);
      if forall j :: 0 <= j < |history| ==> !Verdict(cfg, history, j) {
        NoVerdictKeepsFlag(cfg, known, history);
      }
      forall i | 0 <= i < |history| && LatestVerdict(cfg, history, i)
        ensures After(cfg, known, history).healthy == history[i]
      {
        LatestVerdictRules(cfg, known, history, i);
      }
    }
  }

  // ------------------------------------------------ failover

  lemma {:induction false} FirstUsableFinds(registry: set<Name>, status: map<Name, Health>, names: seq<Name>)
    ensures FirstUsable(registry, status, names).Some?
       <==> exists i :: 0 <= i < |names| && Usable(registry, status, names[i])
    ensures FirstUsable(registry, status, names).Some? ==>
      Usable(registry, status, FirstUsable(registry, status, names).value)
    decreases |names|
  {
    if names != [] && !Usable(registry, status, names[0]) {
      FirstUsableFinds(registry, status, names[1..]);
      if i :| 0 <= i < |names| && Usable(registry, status, names[i]) {
        assert names[1..][i - 1] == names[i];
      }
    }
  }

  lemma {:induction false} StrategyRegistered(registry: set<Name>, strategies: seq<Strategy>, req: Request)
    ensures FirstStrategy(registry, strategies, req).Some? ==>
      FirstStrategy(registry, strategies, req).value in registry
    decreases |strategies|
  {
    if strategies != [] {
      RuleRegistered(registry, strategies[0], strategies[0].rules, req);
      StrategyRegistered(registry, strategies[1..], req);
    }
  }

  lemma {:induction false} RuleRegistered(registry: set<Name>, s: Strategy, rules: seq<Rule>, req: Request)
    ensures FirstRule(registry, s, rules, req).Some? ==> FirstRule(registry, s, rules, req).value in registry
    decreases |rules|
  {
    if rules != [] { RuleRegistered(registry, s, rules[1..], req); }
  }

  lemma {:induction false} SlotsUsable(registry: set<Name>, status: map<Name, Health>, strategies: seq<Strategy>)
    ensures forall i :: 0 <= i < |Slots(registry, status, strategies)| ==>
      Usable(registry, status, Slots(registry, status, strategies)[i])
    decreases |strategies|
  {
    if strategies != [] {
      UsableRulesUsable(registry, status, strategies[0].rules);
      SlotsUsable(registry, status, strategies[1..]);
    }
  }

  lemma {:induction false} UsableRulesUsable(registry: set<Name>, status: map<Name, Health>, rules: seq<Rule>)
    ensures forall i :: 0 <= i < |UsableRules(registry, status, rules)| ==>
      Usable(registry, status, UsableRules(registry, status, rules)[i])
    decreases |rules|
  {
    if rules != [] { UsableRulesUsable(registry, status, rules[1..]); }
  }

  ghost predicate ChainHasUsable(cfg: Config, registry: set<Name>, status: map<Name, Health>, listed: seq<Name>) {
    exists i :: 0 <= i < |Chain(cfg, listed)| && Usable(registry, status, Chain(cfg, listed)[i])
  }

  /** With failover enabled, SelectBackend returns a healthy registered backend whenever the chain has one. */
  lemma FailoverFindsHealthy(cfg: Config, registry: set<Name>, status: map<Name, Health>, counter: nat,
                             listed: seq<Name>, req: Request)
    requires cfg.failover && ChainHasUsable(cfg, registry, status, listed)
    ensures
      var r := Select(cfg, registry, status, counter, listed, req).0;
      r.Ok? && Usable(registry, status, r.value)
  {
    StrategyRegistered(registry, cfg.strategies, req);
    SlotsUsable(registry, status, cfg.strategies);
    FirstUsableFinds(registry, status, Chain(cfg, listed));
  }

  /** When a request has no healthy match of its own, the chain is the only way: with failover enabled the
      answer is healthy and registered exactly when the chain has such a backend. */
  lemma FailoverIsExact(cfg: Config, registry: set<Name>, status: map<Name, Health>, counter: nat,
                        listed: seq<Name>, req: Request)
    requires cfg.failover
    requires
      var m := FirstStrategy(registry, cfg.strategies, req);
      if m.Some? then !IsHealthy(status, m.value)
      else cfg.strategy == "weighted" ==> Slots(registry, status, cfg.strategies) == []
    ensures
      var r := Select(cfg, registry, status, counter, listed, req).0;
      (r.Ok? && Usable(registry, status, r.value)) <==> ChainHasUsable(cfg, registry, status, listed)
  {
    FirstUsableFinds(registry, status, Chain(cfg, listed));
  }

  // ------------------------------------------------ round-robin fairness

  /** How many of the `m` selections after counter value `c` take slot `j` of `n`. */
  function Times(c: nat, m: nat, n: nat, j: nat): nat
    requires n >= 1
  {
    if m == 0 then 0 else Times(c, m - 1, n, j) + (if SlotFor(c + m, n) == j then 1 else 0)
  }

  /** Moving on by one crosses a multiple of `n` after `j` exactly when the new value leaves remainder `j`. */
  lemma NextQuotient(x: nat, n: nat, j: nat)
    requires n >= 1 && j < n
    ensures (x + 1 - j) / n == (x - j) / n + (if (x + 1) % n == j then 1 else 0)
  {
    var q, r := (x - j) / n, (x - j) % n;
    assert x - j == q * n + r;
    if r + 1 == n {
      assert x + 1 - j == (q + 1) * n + 0;
      ModUnique(x + 1 - j, n, q + 1, 0);
      assert x + 1 == (q + 1) * n + j;
      ModUnique(x + 1, n, q + 1, j);
    } else {
      ModUnique(x + 1 - j, n, q, r + 1);
      var s := r + 1 + j;
      if s < n {
        assert x + 1 == q * n + s;
        ModUnique(x + 1, n, q, s);
      } else {
        assert x + 1 == (q + 1) * n + (s - n);
        ModUnique(x + 1, n, q + 1, s - n);
      }
    }
  }

  /** The count in closed form. */
  lemma {:induction false} TimesIsQuotient(c: nat, m: nat, n: nat, j: nat)
    requires n >= 1 && j < n && c + m < TWO_63
    ensures Times(c, m, n, j) == (c + m - j) / n - (c - j) / n
    decreases m
  {
    if m > 0 {
      TimesIsQuotient(c, m - 1, n, j);
      NextQuotient(c + m - 1, n, j);
      assert SlotFor(c + m, n) == (c + m) % n;
    }
  }

  /** Any k * n consecutive selections over n unchanging slots take each slot exactly k times. */
  lemma RoundRobinFair(c: nat, k: nat, n: nat, j: nat)
    requires n >= 1 && j < n && c + k * n < TWO_63
    ensures Times(c, k * n, n, j) == k
  {
    MulMonotone(0, k, n);
    TimesIsQuotient(c, k * n, n, j);
    QuotientShift(c - j, k, n);
  }

  // ------------------------------------------------ where fairness ends

  /** Of the `m` selections after counter value `c`, each of the `n` slots takes `k`. */
  ghost predicate Fair(c: nat, m: nat, n: nat, k: nat)
    requires n >= 1
  {
    forall j :: 0 <= j < n ==> Times(c, m, n, j) == k
  }

  /** Past 2^63 the conversion to int is negative and every selection takes the first slot. */
  lemma FirstPastTwo63(c: nat, n: nat)
    requires n >= 1 && TWO_63 <= c < TWO_64
    ensures SlotFor(c, n) == 0
  {
    var a := TWO_64 - c;
    assert 0 <= a % n;
  }

  lemma {:induction false} TimesPastTwo63(c: nat, m: nat, n: nat, j: nat)
    requires n >= 1 && TWO_63 <= c + 1 && c + m < TWO_64
    ensures Times(c, m, n, j) == if j == 0 then m else 0
    decreases m
  {
    if m > 0 {
      TimesPastTwo63(c, m - 1, n, j);
      FirstPastTwo63(c + m, n);
    }
  }

  lemma {:induction false} TimesAdd(c: nat, a: nat, b: nat, n: nat, j: nat)
    requires n >= 1
    ensures Times(c, a + b, n, j) == Times(c, a, n, j) + Times(c + a, b, n, j)
    decreases b
  {
    if b > 0 {
      TimesAdd(c, a, b - 1, n, j);
      assert c + (a + b) == (c + a) + b;
    }
  }

  /** Two or more steps cross fewer multiples of `n` than there are steps. */
  lemma {:induction false} FewerMultiples(x: nat, b: nat, n: nat)
    requires n >= 2
    ensures (x + b) / n <= x / n + b
    ensures b >= 2 ==> (x + b) / n < x / n + b
    decreases b
  {
    if b > 0 {
      FewerMultiples(x, b - 1, n);
      NextQuotient(x + b - 1, n, 0);
      if b == 2 { AdjacentMultiples(x + 1, n); NextQuotient(x, n, 0); }
    }
  }

  lemma AdjacentMultiples(y: nat, n: nat)
    requires n >= 2
    ensures !(y % n == 0 && (y + 1) % n == 0)
  {
    if y % n == 0 { ModUnique(y + 1, n, y / n, 1); }
  }

  /** A stretch of selections that crosses 2^63: how often each slot is taken. */
  lemma CrossingTimes(c: nat, a: nat, b: nat, n: nat, j: nat)
    requires n >= 1 && j < n && c + a + 1 == TWO_63 && c + a + b < TWO_64
    ensures Times(c, a + b, n, j) == (c + a - j) / n - (c - j) / n + (if j == 0 then b else 0)
  {
    TimesAdd(c, a, b, n, j);
    TimesIsQuotient(c, a, n, j);
    TimesPastTwo63(c + a, b, n, j);
  }

  /** Such a stretch of k * n selections is fair exactly when it ends on 2^63 and `n` divides 2^63. */
  lemma CrossingIsFair(c: nat, a: nat, b: nat, k: nat, n: nat)
    requires n >= 2 && b >= 1 && a + b == k * n && c + a + 1 == TWO_63 && c + a + b < TWO_64
    ensures Fair(c, a + b, n, k) <==> (b == 1 && TWO_63 % n == 0)
  {
    var x := c + a;
    QuotientShift(c, k, n);
    assert (x + b) / n == c / n + k;
    CrossingTimes(c, a, b, n, 0);
    FewerMultiples(x, b, n);
    NextQuotient(x, n, 0);
    if b == 1 && TWO_63 % n == 0 {
      var m := a + b;
      forall j | 0 <= j < n ensures Times(c, m, n, j) == k {
        CrossingTimes(c, a, b, n, j);
        NextQuotient(x, n, j);
        QuotientShift(c - j, k, n);
        assert x + 1 - j == c - j + k * n;
      }
    } else {
      assert Times(c, a + b, n, 0) != k;
    }
  }

  /** Past 2^63 from the start, the first slot takes everything. */
  lemma AllPastIsUnfair(c: nat, k: nat, n: nat)
    requires n >= 2 && k >= 1 && TWO_63 <= c + 1 && c + k * n < TWO_64
    ensures Times(c, k * n, n, 0) != k && k * n >= 2
  {
    TimesPastTwo63(c, k * n, n, 0);
    MulMonotone(1, n, k);
  }

  lemma {:induction false} TimesOfOne(c: nat, m: nat)
    requires c + m < TWO_64
    ensures Times(c, m, 1, 0) == m
    decreases m
  {
    if m > 0 { TimesOfOne(c, m - 1); }
  }

  /** Fairness, exactly: k rounds over n unchanging slots take each slot k times, if and only if there is nothing
      to share out, the counter stays below 2^63, or it ends on 2^63 with `n` a divisor of 2^63. */
  lemma FairExactly(c: nat, k: nat, n: nat)
    requires n >= 1 && c + k * n < TWO_64
    ensures Fair(c, k * n, n, k)
       <==> k == 0 || n == 1 || c + k * n < TWO_63 || (c + k * n == TWO_63 && TWO_63 % n == 0)
  {
    var m := k * n;
    if k == 0 {
    } else if n == 1 {
      TimesOfOne(c, m);
    } else if c + m < TWO_63 {
      forall j | 0 <= j < n ensures Times(c, m, n, j) == k {
        RoundRobinFair(c, k, n, j);
      }
    } else if c + 1 >= TWO_63 {
      AllPastIsUnfair(c, k, n);
    } else {
      CrossingIsFair(c, TWO_63 - 1 - c, c + m + 1 - TWO_63, k, n);
    }
  }

  /** Requests that no strategy rule claims are served by the slots. */
  predicate Unclaimed(cfg: Config, registry: set<Name>, reqs: seq<Request>) {
    forall i :: 0 <= i < |reqs| ==> FirstStrategy(registry, cfg.strategies, reqs[i]).None?
  }

  /** The answers and the counter after a series of requests while registry and health stay as they are. */
  function Serve(cfg: Config, registry: set<Name>, status: map<Name, Health>, c: nat, listed: seq<Name>,
                 reqs: seq<Request>): (seq<Result<Name, NoBackend>>, nat)
  {
    if reqs == [] then ([], c)
    else
      var (answers, c1) := Serve(cfg, registry, status, c, listed, reqs[..|reqs| - 1]);
      var (answer, c2) := Select(cfg, registry, status, c1, listed, reqs[|reqs| - 1]);
      (answers + [answer], c2)
  }

  lemma WeightedAnswer(cfg: Config, registry: set<Name>, status: map<Name, Health>, c: nat, listed: seq<Name>,
                       req: Request)
    requires cfg.strategy == "weighted" && Slots(registry, status, cfg.strategies) != []
    requires FirstStrategy(registry, cfg.strategies, req).None? && c + 1 < TWO_63
    ensures
      var slots := Slots(registry, status, cfg.strategies);
      Select(cfg, registry, status, c, listed, req) == (Ok(slots[SlotFor(c + 1, |slots|)]), c + 1)
  {
    assert Bump(c) == c + 1;
  }

  /** Under the weighted strategy the i-th of a series of unclaimed requests goes to the slot of counter
      value c + i + 1, so the counts of RoundRobinFair are counts of answers. */
  lemma {:induction false} WeightedAnswers(cfg: Config, registry: set<Name>, status: map<Name, Health>, c: nat,
                                           listed: seq<Name>, reqs: seq<Request>)
    requires cfg.strategy == "weighted" && Slots(registry, status, cfg.strategies) != []
    requires Unclaimed(cfg, registry, reqs) && c + |reqs| < TWO_63
    ensures
      var slots := Slots(registry, status, cfg.strategies);
      var (answers, c') := Serve(cfg, registry, status, c, listed, reqs);
      && c' == c + |reqs| && |answers| == |reqs|
      && forall i :: 0 <= i < |reqs| ==> answers[i] == Ok(slots[SlotFor(c + i + 1, |slots|)])
    decreases |reqs|
  {
    if reqs != [] {
      var front := reqs[..|reqs| - 1];
      assert Unclaimed(cfg, registry, front);
      WeightedAnswers(cfg, registry, status, c, listed, front);
      WeightedAnswer(cfg, registry, status, c + |front|, listed, reqs[|reqs| - 1]);
    }
  }

  /** The answers that name backend `b`. */
  function Answered(answers: seq<Result<Name, NoBackend>>, b: Name): nat {
    if answers == [] then 0
    else Answered(answers[..|answers| - 1], b) + (if answers[|answers| - 1] == Ok(b) then 1 else 0)
  }

  /** The slots among the first `n` that hold backend `b`. */
  function Holding(slots: seq<Name>, b: Name, n: nat): nat
    requires n <= |slots|
  {
    if n == 0 then 0 else Holding(slots, b, n - 1) + (if slots[n - 1] == b then 1 else 0)
  }

  /** The selections of counter values c+1 .. c+m that fall on those slots. */
  function Falling(c: nat, m: nat, slots: seq<Name>, b: Name, n: nat): nat
    requires n <= |slots| && slots != []
  {
    if n == 0 then 0
    else Falling(c, m, slots, b, n - 1) + (if slots[n - 1] == b then Times(c, m, |slots|, n - 1) else 0)
  }

  lemma {:induction false} FallingStep(c: nat, m: nat, slots: seq<Name>, b: Name, n: nat)
    requires n <= |slots| && slots != [] && m >= 1
    ensures
      var i := SlotFor(c + m, |slots|);
      Falling(c, m, slots, b, n) == Falling(c, m - 1, slots, b, n) + (if i < n && slots[i] == b then 1 else 0)
  {
    if n > 0 { FallingStep(c, m, slots, b, n - 1); }
  }

  lemma {:induction false} FallingNothing(c: nat, slots: seq<Name>, b: Name, n: nat)
    requires n <= |slots| && slots != []
    ensures Falling(c, 0, slots, b, n) == 0
  {
    if n > 0 { FallingNothing(c, slots, b, n - 1); }
  }

  lemma {:induction false} AnsweredIsFalling(answers: seq<Result<Name, NoBackend>>, c: nat, slots: seq<Name>, b: Name)
    requires slots != []
    requires forall i :: 0 <= i < |answers| ==> answers[i] == Ok(slots[SlotFor(c + i + 1, |slots|)])
    ensures Answered(answers, b) == Falling(c, |answers|, slots, b, |slots|)
    decreases |answers|
  {
    if answers == [] {
      FallingNothing(c, slots, b, |slots|);
    } else {
      var last := |answers| - 1;
      AnsweredIsFalling(answers[..last], c, slots, b);
      FallingStep(c, |answers|, slots, b, |slots|);
      assert answers[last] == Ok(slots[SlotFor(c + last + 1, |slots|)]);
      assert Answered(answers, b) == Answered(answers[..last], b) + (if answers[last] == Ok(b) then 1 else 0);
    }
  }

  lemma {:induction false} EvenFalling(c: nat, m: nat, k: nat, slots: seq<Name>, b: Name, n: nat)
    requires n <= |slots| && slots != []
    requires forall j :: 0 <= j < |slots| ==> Times(c, m, |slots|, j) == k
    ensures Falling(c, m, slots, b, n) == k * Holding(slots, b, n)
  {
    if n > 0 {
      EvenFalling(c, m, k, slots, b, n - 1);
      var h := Holding(slots, b, n - 1);
      assert k * (h + 1) == k * h + k;
    }
  }

  /** Every backend is the answer to its exact share of k rounds of unclaimed requests: k times the number of
      eligible slots that hold it. */
  lemma SharesAreExact(cfg: Config, registry: set<Name>, status: map<Name, Health>, c: nat, listed: seq<Name>,
                       reqs: seq<Request>, k: nat, b: Name)
    requires cfg.strategy == "weighted" && Slots(registry, status, cfg.strategies) != []
    requires Unclaimed(cfg, registry, reqs) && c + |reqs| < TWO_63
    requires |reqs| == k * |Slots(registry, status, cfg.strategies)|
    ensures
      var slots := Slots(registry, status, cfg.strategies);
      Answered(Serve(cfg, registry, status, c, listed, reqs).0, b) == k * Holding(slots, b, |slots|)
  {
    var slots := Slots(registry, status, cfg.strategies);
    WeightedAnswers(cfg, registry, status, c, listed, reqs);
    AnsweredIsFalling(Serve(cfg, registry, status, c, listed, reqs).0, c, slots, b);
    forall j | 0 <= j < |slots| ensures Times(c, |reqs|, |slots|, j) == k {
      RoundRobinFair(c, k, |slots|, j);
    }
    EvenFalling(c, |reqs|, k, slots, b, |slots|);
  }
}
