/** Which requests a token bucket grants, exactly, over whole runs of the per-key limiter. */
module TokenBucketExact {
  import opened Wrappers
  import opened TokenBucket
  import opened TokenBucketTheorems

  // ------------------------------------------------ the rule

  /** The tokens granted to key `k` from request `j` on, given the answers. */
  function Spent(asks: seq<Ask>, answers: seq<bool>, k: Key, j: int): int
    requires |answers| == |asks|
    decreases |asks|
  {
    if |asks| == 0 || |asks| <= j then 0
    else
      var n := |asks| - 1;
      Spent(asks[..n], answers[..n], k, j) + if asks[n].key == k && answers[n] then asks[n].n else 0
  }

  /** `x` more tokens for key `k` at `now` stay within burst + rate * elapsed since request `j` of that key. */
  predicate FitsSince(p: Plan, asks: seq<Ask>, answers: seq<bool>, k: Key, now: real, x: real, j: int)
    requires |answers| == |asks|
  {
    0 <= j < |asks| && asks[j].key == k ==>
      Spent(asks, answers, k, j) as real + x <= p.burst as real + Gain(p.rate, now - asks[j].now)
  }

  /** `x` tokens for key `k` at `now` are within the burst, and with what was granted since any earlier request of
      that key within the burst and what the rate gives in that time. */
  ghost predicate Affordable(p: Plan, asks: seq<Ask>, answers: seq<bool>, k: Key, now: real, x: real)
    requires |answers| == |asks|
  {
    x <= p.burst as real && forall j :: FitsSince(p, asks, answers, k, now, x, j)
  }

  // ------------------------------------------------ the store along a run

  /** The store after a run, and its answers. */
  function After(p: Plan, asks: seq<Ask>): (map<Key, Bucket>, seq<bool>)
    ensures |After(p, asks).1| == |asks|
    decreases |asks|
  {
    if asks == [] then (map[], [])
    else
      var n := |asks| - 1;
      var (m, answers) := After(p, asks[..n]);
      var r := Take(p, Find(m, asks[n].key), asks[n].now, asks[n].n);
      (m[asks[n].key := r.0], answers + [r.1])
  }

  lemma {:induction false} RunFrom(p: Plan, m: map<Key, Bucket>, asks: seq<Ask>, a: Ask)
    ensures |Run(p, m, asks)| == |asks|
    ensures Run(p, m, asks + [a]) == Run(p, m, asks) + [Take(p, Find(StoreAfter(p, m, asks), a.key), a.now, a.n).1]
    decreases |asks|
  {
    if asks == [] {
      assert asks + [a] == [a] && [a][1..] == [];
    } else {
      var r := Take(p, Find(m, asks[0].key), asks[0].now, asks[0].n);
      RunFrom(p, m[asks[0].key := r.0], asks[1..], a);
      assert (asks + [a])[1..] == asks[1..] + [a];
    }
  }

  function StoreAfter(p: Plan, m: map<Key, Bucket>, asks: seq<Ask>): map<Key, Bucket>
    decreases |asks|
  {
    if asks == [] then m
    else StoreAfter(p, m[asks[0].key := Take(p, Find(m, asks[0].key), asks[0].now, asks[0].n).0], asks[1..])
  }

  lemma {:induction false} StoreSnoc(p: Plan, m: map<Key, Bucket>, asks: seq<Ask>, a: Ask)
    ensures
      var m' := StoreAfter(p, m, asks);
      StoreAfter(p, m, asks + [a]) == m'[a.key := Take(p, Find(m', a.key), a.now, a.n).0]
    decreases |asks|
  {
    if asks == [] {
      assert asks + [a] == [a] && [a][1..] == [];
    } else {
      var r := Take(p, Find(m, asks[0].key), asks[0].now, asks[0].n);
      StoreSnoc(p, m[asks[0].key := r.0], asks[1..], a);
      assert (asks + [a])[1..] == asks[1..] + [a];
    }
  }

  lemma {:induction false} AfterIsRun(p: Plan, asks: seq<Ask>)
    ensures After(p, asks) == (StoreAfter(p, map[], asks), Run(p, map[], asks))
    decreases |asks|
  {
    if asks != [] {
      var n := |asks| - 1;
      AfterIsRun(p, asks[..n]);
      assert asks == asks[..n] + [asks[n]];
      RunFrom(p, map[], asks[..n], asks[n]);
      StoreSnoc(p, map[], asks[..n], asks[n]);
    }
  }

  // ------------------------------------------------ the level is the rule

  lemma SpentSnoc(asks: seq<Ask>, answers: seq<bool>, a: Ask, ok: bool, k: Key, j: int)
    requires |answers| == |asks| && j <= |asks|
    ensures Spent(asks + [a], answers + [ok], k, j)
         == Spent(asks, answers, k, j) + if a.key == k && ok then a.n else 0
  {
    assert (asks + [a])[..|asks|] == asks && (answers + [ok])[..|asks|] == answers;
  }

  lemma SpentNothing(asks: seq<Ask>, answers: seq<bool>, k: Key)
    requires |answers| == |asks|
    ensures Spent(asks, answers, k, |asks|) == 0
  {
  }

  /** A request of another key changes nothing for `k`. */
  lemma AffordableOther(p: Plan, asks: seq<Ask>, answers: seq<bool>, a: Ask, ok: bool, k: Key, now: real, x: real)
    requires |answers| == |asks| && a.key != k
    ensures Affordable(p, asks + [a], answers + [ok], k, now, x) <==> Affordable(p, asks, answers, k, now, x)
  {
    var all, bs := asks + [a], answers + [ok];
    forall j ensures FitsSince(p, all, bs, k, now, x, j) <==> FitsSince(p, asks, answers, k, now, x, j) {
      if 0 <= j < |asks| { SpentSnoc(asks, answers, a, ok, k, j); }
    }
  }

  /** A request of `k` at `a.now` that took `g` tokens: `x` at `now` is affordable exactly when it is within the
      burst and what is missing of it at `a.now` was. */
  lemma AffordableSame(p: Plan, asks: seq<Ask>, answers: seq<bool>, a: Ask, ok: bool, now: real, x: real)
    requires |answers| == |asks|
    ensures
      var g := (if ok then a.n else 0) as real;
      Affordable(p, asks + [a], answers + [ok], a.key, now, x)
      <==> x <= p.burst as real && Affordable(p, asks, answers, a.key, a.now, x + g - Gain(p.rate, now - a.now))
  {
    var all, bs, n, k := asks + [a], answers + [ok], |asks|, a.key;
    var g := (if ok then a.n else 0) as real;
    var y := x + g - Gain(p.rate, now - a.now);
    SpentSnoc(asks, answers, a, ok, k, n);
    SpentNothing(asks, answers, k);
    assert FitsSince(p, all, bs, k, now, x, n) <==> y <= p.burst as real;
    forall j | j != n ensures FitsSince(p, all, bs, k, now, x, j) <==> FitsSince(p, asks, answers, k, a.now, y, j) {
      if 0 <= j < n {
        SpentSnoc(asks, answers, a, ok, k, j);
        GainDifference(p.rate, now, a.now);
        GainDifference(p.rate, now, asks[j].now);
        GainDifference(p.rate, a.now, asks[j].now);
      }
    }
    assert FitsSince(p, asks, answers, k, a.now, y, n);
  }

  /** At any time the bucket offers exactly what the rule affords. */
  lemma {:induction false} LevelIsRule(p: Plan, asks: seq<Ask>, k: Key, now: real, x: real)
    ensures x <= Level(p, Find(After(p, asks).0, k), now) <==> Affordable(p, asks, After(p, asks).1, k, now, x)
    decreases |asks|
  {
    if asks == [] {
      assert forall j :: FitsSince(p, asks, After(p, asks).1, k, now, x, j);
    } else {
      var n := |asks| - 1;
      var front, a := asks[..n], asks[n];
      var (m, answers) := After(p, front);
      var r := Take(p, Find(m, a.key), a.now, a.n);
      assert asks == front + [a] && After(p, asks).1 == answers + [r.1];
      if a.key != k {
        LevelIsRule(p, front, k, now, x);
        AffordableOther(p, front, answers, a, r.1, k, now, x);
      } else {
        var g := (if r.1 then a.n else 0) as real;
        LevelIsRule(p, front, k, a.now, x + g - Gain(p.rate, now - a.now));
        AffordableSame(p, front, answers, a, r.1, now, x);
      }
    }
  }

  /** In every run of the per-key limiter a request is granted, if and only if it is within the burst, and together
      with what was granted to its key since any earlier request of that key within burst + rate * elapsed. */
  lemma GrantedExactly(p: Plan, asks: seq<Ask>, i: nat)
    requires i < |asks|
    ensures |Run(p, map[], asks)| == |asks|
    ensures Run(p, map[], asks)[i]
       <==> Affordable(p, asks[..i], Run(p, map[], asks)[..i], asks[i].key, asks[i].now, asks[i].n as real)
  {
    RunPrefix(p, map[], asks, i);
    RunPrefix(p, map[], asks, i + 1);
    var front, a := asks[..i], asks[i];
    assert asks[..i + 1] == front + [a];
    AfterIsRun(p, front);
    RunFrom(p, map[], front, a);
    LevelIsRule(p, front, a.key, a.now, a.n as real);
  }

  lemma {:induction false} RunPrefix(p: Plan, m: map<Key, Bucket>, asks: seq<Ask>, i: nat)
    requires i <= |asks|
    ensures |Run(p, m, asks)| == |asks| && Run(p, m, asks[..i]) == Run(p, m, asks)[..i]
    decreases |asks|
  {
    if asks != [] {
      var m' := m[asks[0].key := Take(p, Find(m, asks[0].key), asks[0].now, asks[0].n).0];
      if i == 0 {
        RunPrefix(p, m', asks[1..], 0);
      } else {
        RunPrefix(p, m', asks[1..], i - 1);
        assert asks[..i][1..] == asks[1..][..i - 1];
      }
    }
  }

  // ------------------------------------------------ refused requests cost nothing

  lemma RefusedAgrees(p: Plan, m: map<Key, Bucket>, a: Ask)
    requires Positive(p) && Settled(m, a.now) && !Take(p, Find(m, a.key), a.now, a.n).1
    ensures
      var m' := m[a.key := Take(p, Find(m, a.key), a.now, a.n).0];
      Agree(p, m', m, a.now) && Settled(m', a.now)
  {
    var m' := m[a.key := Take(p, Find(m, a.key), a.now, a.n).0];
    SettledPut(p, m, a.key, a.now, a.n);
    forall k ensures SameLevel(p, m', m, a.now, k) {
      if k == a.key { LevelNow(p, Level(p, Find(m, k), a.now), a.now); }
    }
  }

  lemma WithoutOne(first: bool, rest: seq<bool>, i: nat)
    requires 1 <= i <= |rest|
    ensures ([first] + rest)[..i] + ([first] + rest)[i + 1..] == [first] + (rest[..i - 1] + rest[i..])
  {
  }

  /** A refused request, left out of a run, changes no other answer. */
  lemma {:induction false} RefusedLeavesNoTrace(p: Plan, m: map<Key, Bucket>, t: real, asks: seq<Ask>, i: nat)
    requires Positive(p) && Settled(m, t) && ClockFrom(asks, t) && i < |asks|
    requires |Run(p, m, asks)| == |asks| && !Run(p, m, asks)[i]
    ensures Run(p, m, asks[..i] + asks[i + 1..]) == Run(p, m, asks)[..i] + Run(p, m, asks)[i + 1..]
    decreases |asks|
  {
    var a, rest := asks[0], asks[1..];
    var r := Take(p, Find(m, a.key), a.now, a.n);
    var m' := m[a.key := r.0];
    SettledLater(m, t, a.now);
    if i == 0 {
      RefusedAgrees(p, m, a);
      AgreeingStores(p, m', m, a.now, rest);
      assert asks[..0] + asks[1..] == rest;
    } else {
      SettledPut(p, m, a.key, a.now, a.n);
      RefusedLeavesNoTrace(p, m', a.now, rest, i - 1);
      assert (asks[..i] + asks[i + 1..])[1..] == rest[..i - 1] + rest[i..];
      WithoutOne(r.1, Run(p, m', rest), i);
    }
  }

  // ------------------------------------------------ the limiter of the middleware, per minute

  /** The middleware's limiter gives requestsPerMinute tokens in every minute. */
  lemma PerMinute(requestsPerMinute: int, burstSize: int, minutes: real)
    ensures Gain(AuthPlan(requestsPerMinute, burstSize).rate, minutes * 60.0) == requestsPerMinute as real * minutes
    ensures AuthPlan(requestsPerMinute, burstSize).burst == burstSize
  {
  }

  /** In any number of minutes it grants a key at most burstSize and requestsPerMinute for each minute. */
  lemma GrantedPerMinute(requestsPerMinute: int, burstSize: int, t0: real, before: seq<Ask>, during: seq<Ask>,
                         from: real, minutes: real)
    requires requestsPerMinute >= 1 && burstSize >= 1 && ClockFrom(before + during, t0) && during != []
    requires from <= during[0].now && during[|during| - 1].now <= from + minutes * 60.0
    ensures
      var p := AuthPlan(requestsPerMinute, burstSize);
      Granted(p, AfterAll(p, None, before), during) <= burstSize as real + requestsPerMinute as real * minutes
  {
    var p := AuthPlan(requestsPerMinute, burstSize);
    GrantedWithinBound(p, t0, before, during, from, from + minutes * 60.0);
    PerMinute(requestsPerMinute, burstSize, minutes);
  }

  // ------------------------------------------------ which keys Cleanup drops

  predicate UsedSince(m: map<Key, Bucket>, k: Key, cutoff: real) { k in m && m[k].last >= cutoff }

  ghost predicate AskedSince(asks: seq<Ask>, k: Key, cutoff: real) {
    exists i :: 0 <= i < |asks| && asks[i].key == k && asks[i].now >= cutoff
  }

  lemma AskedCons(asks: seq<Ask>, k: Key, cutoff: real)
    requires asks != []
    ensures AskedSince(asks, k, cutoff)
       <==> (asks[0].key == k && asks[0].now >= cutoff) || AskedSince(asks[1..], k, cutoff)
  {
    if AskedSince(asks[1..], k, cutoff) {
      var i :| 0 <= i < |asks[1..]| && asks[1..][i].key == k && asks[1..][i].now >= cutoff;
      assert asks[i + 1] == asks[1..][i];
    }
    if i :| 0 <= i < |asks| && asks[i].key == k && asks[i].now >= cutoff {
      if i > 0 { assert asks[1..][i - 1] == asks[i]; }
    }
  }

  lemma {:induction false} UsedAfter(p: Plan, m: map<Key, Bucket>, t: real, asks: seq<Ask>, k: Key, cutoff: real)
    requires ClockFrom(asks, t) && (k in m ==> m[k].last <= t)
    ensures UsedSince(StoreAfter(p, m, asks), k, cutoff) <==> UsedSince(m, k, cutoff) || AskedSince(asks, k, cutoff)
    decreases |asks|
  {
    if asks != [] {
      var a := asks[0];
      var m' := m[a.key := Take(p, Find(m, a.key), a.now, a.n).0];
      UsedAfter(p, m', a.now, asks[1..], k, cutoff);
      AskedCons(asks, k, cutoff);
    }
  }

  /** Cleanup keeps exactly the keys with a request not older than maxAge. */
  lemma CleanupKeeps(p: Plan, asks: seq<Ask>, t: real, now: real, maxAge: real, k: Key)
    requires ClockFrom(asks, t)
    ensures k in Swept(StoreAfter(p, map[], asks), now - maxAge)
       <==> exists i :: 0 <= i < |asks| && asks[i].key == k && now - asks[i].now <= maxAge
  {
    var cutoff := now - maxAge;
    UsedAfter(p, map[], t, asks, k, cutoff);
    assert forall i :: 0 <= i < |asks| ==> (asks[i].now >= cutoff <==> now - asks[i].now <= maxAge);
  }

  // ------------------------------------------------ the Redis script

  /** The key's time-to-live is the time of a full refill, rounded up to seconds, and one second more. */
  lemma TtlIs(p: Plan)
    requires p.rate > 0.0
    ensures (Ttl(p) - 2) as real < p.burst as real / p.rate <= (Ttl(p) - 1) as real
  {
  }

  /** A clock that went back gives no tokens and takes none. */
  lemma ScriptClockBack(p: Plan, b: Bucket, now: real, n: int)
    requires now < b.last && b.tokens <= p.burst as real
    ensures ScriptTake(p, Some(b), now, n)
         == (Bucket(if n as real <= b.tokens then b.tokens - n as real else b.tokens, now), n as real <= b.tokens)
  {
    LevelNow(p, b.tokens, b.last);
  }
}
