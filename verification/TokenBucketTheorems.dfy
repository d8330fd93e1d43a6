/** Token buckets over whole runs: refinement between the implementations, and the rate bound. */
module TokenBucketTheorems {
  import opened Wrappers
  import opened TokenBucket

  datatype Ask = Ask(key: Key, now: real, n: int)

  /** The decisions of the plain per-key bucket, from store `m`. */
  function Run(p: Plan, m: map<Key, Bucket>, asks: seq<Ask>): seq<bool>
    decreases |asks|
  {
    if asks == [] then []
    else
      var r := Take(p, Find(m, asks[0].key), asks[0].now, asks[0].n);
      [r.1] + Run(p, m[asks[0].key := r.0], asks[1..])
  }

  /** The clock does not go back, starting at `t`. */
  predicate ClockFrom(asks: seq<Ask>, t: real) {
    asks == [] || (t <= asks[0].now && ClockFrom(asks[1..], asks[0].now))
  }

  // ------------------------------------------------ levels decide everything

  predicate Settled(m: map<Key, Bucket>, t: real) {
    forall k :: k in m ==> m[k].last <= t && m[k].tokens >= 0.0
  }

  predicate SettledBucket(b: Option<Bucket>, t: real) {
    b.Some? ==> b.value.last <= t && b.value.tokens >= 0.0
  }

  ghost predicate Agree(p: Plan, m: map<Key, Bucket>, m': map<Key, Bucket>, t: real) {
    forall k :: SameLevel(p, m, m', t, k)
  }

  predicate SameLevel(p: Plan, m: map<Key, Bucket>, m': map<Key, Bucket>, t: real, k: Key) {
    Level(p, Find(m, k), t) == Level(p, Find(m', k), t)
  }

  lemma MulNonNegative(a: real, b: real)
    requires a >= 0.0 && b >= 0.0
    ensures a * b >= 0.0
  {
  }

  lemma LevelLater(p: Plan, b: Option<Bucket>, t: real, t': real)
    requires Positive(p) && SettledBucket(b, t) && t <= t'
    ensures Level(p, b, t') == Min(Level(p, b, t) + (t' - t) * p.rate, p.burst as real)
    ensures Level(p, b, t) >= 0.0
  {
    MulNonNegative(t' - t, p.rate);
    if b.Some? {
      var last := b.value.last;
      MulNonNegative(t - last, p.rate);
      SpanSplits(p.rate, last, t, t');
      MinTwice(b.value.tokens + Gain(p.rate, t - last), (t' - t) * p.rate, p.burst as real);
    }
  }

  lemma SpanSplits(rate: real, last: real, t: real, t': real)
    ensures Gain(rate, t' - last) == Gain(rate, t - last) + (t' - t) * rate
  {
  }

  /** A cap applied on the way does not change the end. */
  lemma MinTwice(x: real, gain: real, cap: real)
    requires gain >= 0.0
    ensures Min(x + gain, cap) == Min(Min(x, cap) + gain, cap)
  {
  }

  lemma AgreeLater(p: Plan, m: map<Key, Bucket>, m': map<Key, Bucket>, t: real, t': real)
    requires Positive(p) && Settled(m, t) && Settled(m', t) && t <= t' && Agree(p, m, m', t)
    ensures Agree(p, m, m', t')
  {
    forall k ensures SameLevel(p, m, m', t', k) {
      LevelLater(p, Find(m, k), t, t');
      LevelLater(p, Find(m', k), t, t');
      assert SameLevel(p, m, m', t, k);
    }
  }

  lemma TakeSettled(p: Plan, b: Option<Bucket>, now: real, n: int)
    requires Positive(p) && SettledBucket(b, now)
    ensures var r := Take(p, b, now, n).0; r.last == now && r.tokens >= 0.0
    ensures n >= 0 ==> Take(p, b, now, n).0.tokens <= p.burst as real
  {
    LevelLater(p, b, now, now);
  }

  lemma SettledLater(m: map<Key, Bucket>, t: real, t': real)
    requires Settled(m, t) && t <= t'
    ensures Settled(m, t')
  {
  }

  lemma SettledPut(p: Plan, m: map<Key, Bucket>, k: Key, now: real, n: int)
    requires Positive(p) && Settled(m, now)
    ensures Settled(m[k := Take(p, Find(m, k), now, n).0], now)
  {
    TakeSettled(p, Find(m, k), now, n);
  }

  lemma AgreePut(p: Plan, m: map<Key, Bucket>, m': map<Key, Bucket>, now: real, k: Key, b: Bucket)
    requires Agree(p, m, m', now)
    ensures Agree(p, m[k := b], m'[k := b], now)
  {
    var m1, m1' := m[k := b], m'[k := b];
    forall j ensures SameLevel(p, m1, m1', now, j) {
      assert SameLevel(p, m, m', now, j);
    }
  }

  /** One request on stores that agree. */
  lemma AgreeingTake(p: Plan, m: map<Key, Bucket>, m': map<Key, Bucket>, a: Ask) returns (b: Bucket)
    requires Positive(p) && Settled(m, a.now) && Settled(m', a.now) && Agree(p, m, m', a.now)
    ensures Take(p, Find(m, a.key), a.now, a.n) == Take(p, Find(m', a.key), a.now, a.n)
    ensures b == Take(p, Find(m, a.key), a.now, a.n).0
    ensures Settled(m[a.key := b], a.now) && Settled(m'[a.key := b], a.now)
    ensures Agree(p, m[a.key := b], m'[a.key := b], a.now)
  {
    assert SameLevel(p, m, m', a.now, a.key);
    SettledPut(p, m, a.key, a.now, a.n);
    SettledPut(p, m', a.key, a.now, a.n);
    b := Take(p, Find(m, a.key), a.now, a.n).0;
    AgreePut(p, m, m', a.now, a.key, b);
  }

  /** Stores that agree on every level make the same decisions for ever. */
  lemma {:induction false} AgreeingStores(p: Plan, m: map<Key, Bucket>, m': map<Key, Bucket>, t: real, asks: seq<Ask>)
    requires Positive(p) && Settled(m, t) && Settled(m', t) && Agree(p, m, m', t) && ClockFrom(asks, t)
    ensures Run(p, m, asks) == Run(p, m', asks)
    decreases |asks|
  {
    if asks != [] {
      var a := asks[0];
      AgreeLater(p, m, m', t, a.now);
      var b := AgreeingTake(p, m, m', a);
      AgreeingStores(p, m[a.key := b], m'[a.key := b], a.now, asks[1..]);
    }
  }

  /** A limiter made in advance decides like one made at its first request. */
  lemma EagerIsLazy(p: Plan, k: Key, t0: real, asks: seq<Ask>)
    requires Positive(p) && ClockFrom(asks, t0)
    ensures Run(p, map[k := Bucket(p.burst as real, t0)], asks) == Run(p, map[], asks)
  {
    FreshIsFull(p, t0);
    AgreeingStores(p, map[k := Bucket(p.burst as real, t0)], map[], t0, asks);
  }

  // ------------------------------------------------ Cleanup

  datatype Event = Request(ask: Ask) | Cleanup(now: real, maxAge: real)

  function Time(e: Event): real {
    match e case Request(a) => a.now case Cleanup(now, _) => now
  }

  function RunWithCleanup(p: Plan, m: map<Key, Bucket>, es: seq<Event>): seq<bool>
    decreases |es|
  {
    if es == [] then []
    else match es[0]
      case Request(a) =>
        var r := Take(p, Find(m, a.key), a.now, a.n);
        [r.1] + RunWithCleanup(p, m[a.key := r.0], es[1..])
      case Cleanup(now, maxAge) => RunWithCleanup(p, Swept(m, now - maxAge), es[1..])
  }

  function Requests(es: seq<Event>): seq<Ask> {
    if es == [] then []
    else match es[0] case Request(a) => [a] + Requests(es[1..]) case Cleanup(_, _) => Requests(es[1..])
  }

  predicate EventClock(es: seq<Event>, t: real) {
    es == [] || (t <= Time(es[0]) && EventClock(es[1..], Time(es[0])))
  }

  /** Every Cleanup waits long enough for an idle bucket to fill. */
  predicate PatientCleanups(p: Plan, es: seq<Event>) {
    forall i :: 0 <= i < |es| && es[i].Cleanup? ==> es[i].maxAge * p.rate >= p.burst as real
  }

  /** A bucket that has been idle for a full refill is as good as none. */
  lemma IdleIsFull(p: Plan, b: Bucket, idle: real, now: real)
    requires Positive(p) && b.tokens >= 0.0 && idle * p.rate >= p.burst as real && now - b.last >= idle
    ensures Level(p, Some(b), now) == p.burst as real
  {
    assert (now - b.last) * p.rate == idle * p.rate + (now - b.last - idle) * p.rate;
    MulNonNegative(now - b.last - idle, p.rate);
  }

  lemma SweptAgrees(p: Plan, m: map<Key, Bucket>, m': map<Key, Bucket>, now: real, maxAge: real)
    requires Positive(p) && Settled(m, now) && Agree(p, m, m', now) && maxAge * p.rate >= p.burst as real
    ensures Agree(p, Swept(m, now - maxAge), m', now) && Settled(Swept(m, now - maxAge), now)
  {
    var swept := Swept(m, now - maxAge);
    forall k ensures SameLevel(p, swept, m', now, k) {
      assert SameLevel(p, m, m', now, k);
      if k in m && m[k].last < now - maxAge {
        IdleIsFull(p, m[k], maxAge, now);
      }
    }
  }

  lemma {:induction false} CleanupRefines(p: Plan, m: map<Key, Bucket>, m': map<Key, Bucket>, t: real, es: seq<Event>)
    requires Positive(p) && Settled(m, t) && Settled(m', t) && Agree(p, m, m', t)
    requires EventClock(es, t) && PatientCleanups(p, es)
    ensures RunWithCleanup(p, m, es) == Run(p, m', Requests(es))
    decreases |es|
  {
    if es != [] {
      AgreeLater(p, m, m', t, Time(es[0]));
      SettledLater(m, t, Time(es[0]));
      SettledLater(m', t, Time(es[0]));
      assert PatientCleanups(p, es[1..]);
      match es[0] {
        case Request(a) =>
          var b := AgreeingTake(p, m, m', a);
          CleanupRefines(p, m[a.key := b], m'[a.key := b], a.now, es[1..]);
          assert ([a] + Requests(es[1..]))[1..] == Requests(es[1..]);
        case Cleanup(now, maxAge) =>
          SweptAgrees(p, m, m', now, maxAge);
          CleanupRefines(p, Swept(m, now - maxAge), m', now, es[1..]);
      }
    }
  }

  /** Cleanup never changes a decision when maxAge times rate covers the burst. */
  lemma CleanupIsInvisible(p: Plan, t: real, es: seq<Event>)
    requires Positive(p) && EventClock(es, t) && PatientCleanups(p, es)
    ensures RunWithCleanup(p, map[], es) == Run(p, map[], Requests(es))
  {
    CleanupRefines(p, map[], map[], t, es);
  }

  /** Every request is for one token, as the per-key limiter makes them. */
  predicate SingleTokens(es: seq<Event>) {
    forall i :: 0 <= i < |es| && es[i].Request? ==> es[i].ask.n == 1
  }

  /** Every Cleanup has that maxAge. */
  predicate CleanupsOf(es: seq<Event>, maxAge: real) {
    forall i :: 0 <= i < |es| && es[i].Cleanup? ==> es[i].maxAge == maxAge
  }

  /** No run of one-token requests tells whether Cleanup with that maxAge runs in between. */
  ghost predicate Invisible(p: Plan, maxAge: real) {
    forall t, es :: EventClock(es, t) && SingleTokens(es) && CleanupsOf(es, maxAge) ==> Unchanged(p, es)
  }

  predicate Unchanged(p: Plan, es: seq<Event>) {
    RunWithCleanup(p, map[], es) == Run(p, map[], Requests(es))
  }

  /** `n` requests for one token each. */
  function Singles(k: Key, now: real, n: nat): (es: seq<Event>)
    ensures |es| == n && forall i :: 0 <= i < n ==> es[i] == Request(Ask(k, now, 1))
  {
    if n == 0 then [] else [Request(Ask(k, now, 1))] + Singles(k, now, n - 1)
  }

  predicate AllTrue(answers: seq<bool>) { forall i :: 0 <= i < |answers| ==> answers[i] }

  lemma AllTrueCons(b: bool, answers: seq<bool>)
    ensures AllTrue([b] + answers) <==> b && AllTrue(answers)
  {
    assert forall i :: 0 <= i < |answers| ==> answers[i] == ([b] + answers)[i + 1];
    assert ([b] + answers)[0] == b;
  }

  /** A bucket's level at the time of its last use. */
  lemma LevelNow(p: Plan, tokens: real, now: real)
    requires tokens <= p.burst as real
    ensures Level(p, Some(Bucket(tokens, now)), now) == tokens
  {
    assert now - now == 0.0;
  }

  lemma SinglesCons(k: Key, now: real, n: nat, rest: seq<Event>)
    requires n > 0
    ensures Singles(k, now, n) + rest != [] && (Singles(k, now, n) + rest)[0] == Request(Ask(k, now, 1))
    ensures (Singles(k, now, n) + rest)[1..] == Singles(k, now, n - 1) + rest
  {
  }

  /** One single request: its answer, and the rest from the store it leaves. */
  lemma SingleStep(p: Plan, m: map<Key, Bucket>, k: Key, now: real, n: nat, rest: seq<Event>)
    requires n > 0
    ensures
      var r := Take(p, Find(m, k), now, 1);
      AllTrue(RunWithCleanup(p, m, Singles(k, now, n) + rest))
      <==> r.1 && AllTrue(RunWithCleanup(p, m[k := r.0], Singles(k, now, n - 1) + rest))
  {
    SinglesCons(k, now, n, rest);
    var r := Take(p, Find(m, k), now, 1);
    AllTrueCons(r.1, RunWithCleanup(p, m[k := r.0], Singles(k, now, n - 1) + rest));
  }

  /** As many single requests as the level has tokens are all granted. */
  lemma {:induction false} SinglesGranted(p: Plan, m: map<Key, Bucket>, k: Key, now: real, n: nat, rest: seq<Event>)
    requires n as real <= Level(p, Find(m, k), now) && n > 0
    ensures
      AllTrue(RunWithCleanup(p, m, Singles(k, now, n) + rest))
      <==> AllTrue(RunWithCleanup(p, m[k := Bucket(Level(p, Find(m, k), now) - n as real, now)], rest))
    decreases n
  {
    var level := Level(p, Find(m, k), now);
    var m' := m[k := Bucket(level - 1.0, now)];
    SingleStep(p, m, k, now, n, rest);
    LevelNow(p, level - 1.0, now);
    if n == 1 {
      assert Singles(k, now, 0) + rest == rest;
    } else {
      SinglesGranted(p, m', k, now, n - 1, rest);
      assert m'[k := Bucket(level - n as real, now)] == m[k := Bucket(level - n as real, now)];
    }
  }

  /** More single requests than the level has tokens are not. */
  lemma {:induction false} SinglesRefused(p: Plan, m: map<Key, Bucket>, k: Key, now: real, n: nat, rest: seq<Event>)
    requires n as real > Level(p, Find(m, k), now) && n > 0
    ensures !AllTrue(RunWithCleanup(p, m, Singles(k, now, n) + rest))
    decreases n
  {
    var level := Level(p, Find(m, k), now);
    SingleStep(p, m, k, now, n, rest);
    if level >= 1.0 {
      LevelNow(p, level - 1.0, now);
      SinglesRefused(p, m[k := Bucket(level - 1.0, now)], k, now, n - 1, rest);
    }
  }

  lemma {:induction false} SinglesClock(k: Key, now: real, n: nat, rest: seq<Event>, t: real)
    requires t <= now && EventClock(rest, now)
    ensures EventClock(Singles(k, now, n) + rest, t)
    decreases n
  {
    if n == 0 {
      assert Singles(k, now, 0) + rest == rest;
    } else {
      SinglesCons(k, now, n, rest);
      SinglesClock(k, now, n - 1, rest, now);
    }
  }

  lemma {:induction false} RequestsAppend(a: seq<Event>, b: seq<Event>)
    ensures Requests(a + b) == Requests(a) + Requests(b)
    decreases |a|
  {
    if a == [] {
      assert a + b == b && [] + Requests(b) == Requests(b);
    } else {
      RequestsAppend(a[1..], b);
      assert (a + b)[1..] == a[1..] + b;
    }
  }

  /** The burst spent in single requests, a Cleanup, and the burst asked for again. */
  function Twice(p: Plan, k: Key, now: real, maxAge: real): seq<Event>
    requires Positive(p)
  {
    Singles(k, 0.0, p.burst) + ([Cleanup(now, maxAge)] + Singles(k, now, p.burst))
  }

  /** With the Cleanup the second burst meets no bucket and is granted. */
  lemma TwiceGranted(p: Plan, k: Key, now: real, maxAge: real)
    requires Positive(p) && now > maxAge
    ensures AllTrue(RunWithCleanup(p, map[], Twice(p, k, now, maxAge)))
  {
    var second := Singles(k, now, p.burst);
    var rest := [Cleanup(now, maxAge)] + second;
    SinglesGranted(p, map[], k, 0.0, p.burst, rest);
    var spent: map<Key, Bucket> := map[k := Bucket(0.0, 0.0)];
    assert map[][k := Bucket(p.burst as real - p.burst as real, 0.0)] == spent;
    assert rest[1..] == second && Swept(spent, now - maxAge) == map[];
    SinglesGranted(p, map[], k, now, p.burst, []);
    assert second + [] == second;
  }

  /** Without it the bucket has not refilled. */
  lemma TwiceRefused(p: Plan, k: Key, now: real)
    requires Positive(p) && Gain(p.rate, now) < p.burst as real
    ensures !AllTrue(RunWithCleanup(p, map[], Singles(k, 0.0, p.burst) + Singles(k, now, p.burst)))
  {
    SinglesGranted(p, map[], k, 0.0, p.burst, Singles(k, now, p.burst));
    var spent: map<Key, Bucket> := map[k := Bucket(0.0, 0.0)];
    assert map[][k := Bucket(p.burst as real - p.burst as real, 0.0)] == spent;
    assert now - 0.0 == now;
    SinglesRefused(p, spent, k, now, p.burst, []);
    assert Singles(k, now, p.burst) + [] == Singles(k, now, p.burst);
  }

  /** The plain run of the same requests. */
  lemma TwicePlain(p: Plan, k: Key, now: real, maxAge: real)
    requires Positive(p) && now >= 0.0
    ensures EventClock(Twice(p, k, now, maxAge), 0.0)
    ensures Run(p, map[], Requests(Twice(p, k, now, maxAge)))
         == RunWithCleanup(p, map[], Singles(k, 0.0, p.burst) + Singles(k, now, p.burst))
  {
    var first, second, c := Singles(k, 0.0, p.burst), Singles(k, now, p.burst), [Cleanup(now, maxAge)];
    SinglesClock(k, now, p.burst, [], now);
    assert second + [] == second;
    assert (c + second)[1..] == second;
    SinglesClock(k, 0.0, p.burst, c + second, 0.0);
    SinglesClock(k, now, p.burst, [], 0.0);
    SinglesClock(k, 0.0, p.burst, second, 0.0);
    CleanupIsInvisible(p, 0.0, first + second);
    RequestsAppend(first, second);
    RequestsAppend(first, c + second);
    assert Requests(c + second) == Requests(second);
  }

  /** A time at which a bucket spent at 0 may be swept and has not refilled. */
  lemma BetweenTimes(p: Plan, maxAge: real) returns (now: real)
    requires Positive(p) && maxAge * p.rate < p.burst as real
    ensures now >= 0.0 && now > maxAge && Gain(p.rate, now) < p.burst as real
  {
    var full := p.burst as real / p.rate;
    assert full * p.rate == p.burst as real;
    assert full > 0.0;
    var from := if maxAge > 0.0 then maxAge else 0.0;
    assert from < full by {
      if maxAge >= full {
        assert (maxAge - full) * p.rate == maxAge * p.rate - full * p.rate;
        MulNonNegative(maxAge - full, p.rate);
      }
    }
    now := (from + full) / 2.0;
    assert (full - now) * p.rate > 0.0;
    assert now * p.rate == full * p.rate - (full - now) * p.rate;
  }

  /** An impatient Cleanup lets a spent burst through a second time, in single requests. */
  lemma ImpatientCleanupShows(p: Plan, k: Key, maxAge: real) returns (es: seq<Event>)
    requires Positive(p) && maxAge * p.rate < p.burst as real
    ensures EventClock(es, 0.0) && SingleTokens(es) && CleanupsOf(es, maxAge) && !Unchanged(p, es)
  {
    var now := BetweenTimes(p, maxAge);
    es := Twice(p, k, now, maxAge);
    TwiceGranted(p, k, now, maxAge);
    TwicePlain(p, k, now, maxAge);
    TwiceRefused(p, k, now);
  }

  /** Cleanup is invisible exactly when maxAge times rate covers the burst. */
  lemma CleanupIsExact(p: Plan, k: Key, maxAge: real)
    requires Positive(p)
    ensures Invisible(p, maxAge) <==> maxAge * p.rate >= p.burst as real
  {
    if maxAge * p.rate >= p.burst as real {
      forall t, es | EventClock(es, t) && SingleTokens(es) && CleanupsOf(es, maxAge) ensures Unchanged(p, es) {
        CleanupIsInvisible(p, t, es);
      }
    } else {
      var es := ImpatientCleanupShows(p, k, maxAge);
      assert EventClock(es, 0.0);
    }
  }

  // ------------------------------------------------ the Redis script and key expiry

  /** A script call: the server's clock, and whether the server has expired the key by then. */
  datatype ServerAsk = ServerAsk(ask: Ask, serverNow: real, gone: bool)

  function RunRedis(p: Plan, h: map<Key, Stored>, asks: seq<ServerAsk>): seq<bool>
    requires p.rate > 0.0
    decreases |asks|
  {
    if asks == [] then []
    else
      var a := asks[0];
      var r := ScriptTake(p, Visible(Find(h, a.ask.key), a.gone), a.ask.now, a.ask.n);
      [r.1] + RunRedis(p, h[a.ask.key := Stored(r.0, a.serverNow + Ttl(p) as real)], asks[1..])
  }

  function Plainly(asks: seq<ServerAsk>): seq<Ask> {
    if asks == [] then [] else [asks[0].ask] + Plainly(asks[1..])
  }

  predicate ServerClock(asks: seq<ServerAsk>, t: real) {
    asks == [] || (t <= asks[0].ask.now && ServerClock(asks[1..], asks[0].ask.now))
  }

  /** The server's clock is ahead of the callers' by `lead` seconds, give or take `spread`. */
  predicate Skew(asks: seq<ServerAsk>, lead: real, spread: real) {
    forall i :: 0 <= i < |asks| ==> lead <= asks[i].serverNow - asks[i].ask.now <= lead + spread
  }

  /** The server expires a key only at or after its deadline. */
  predicate Punctual(p: Plan, h: map<Key, Stored>, asks: seq<ServerAsk>)
    requires p.rate > 0.0
    decreases |asks|
  {
    asks == [] ||
    var a := asks[0];
    var b := ScriptTake(p, Visible(Find(h, a.ask.key), a.gone), a.ask.now, a.ask.n).0;
    && (a.gone && a.ask.key in h ==> a.serverNow >= h[a.ask.key].deadline)
    && Punctual(p, h[a.ask.key := Stored(b, a.serverNow + Ttl(p) as real)], asks[1..])
  }

  /** Deadlines in the store lie a time-to-live after their writing, as seen by the server. */
  predicate Dated(p: Plan, h: map<Key, Stored>, lead: real, spread: real)
    requires p.rate > 0.0
  {
    forall k :: k in h ==> lead <= h[k].deadline - Ttl(p) as real - h[k].bucket.last <= lead + spread
  }

  function Buckets(h: map<Key, Stored>): map<Key, Bucket> {
    map k | k in h :: h[k].bucket
  }

  lemma ExpiredIsFull(p: Plan, s: Stored, lead: real, spread: real, now: real, serverNow: real)
    requires Positive(p) && s.bucket.tokens >= 0.0
    requires lead <= s.deadline - Ttl(p) as real - s.bucket.last <= lead + spread
    requires lead <= serverNow - now <= lead + spread && serverNow >= s.deadline
    requires (Ttl(p) as real - spread) * p.rate >= p.burst as real
    ensures Level(p, Some(s.bucket), now) == p.burst as real
  {
    IdleIsFull(p, s.bucket, Ttl(p) as real - spread, now);
  }

  /** One script call on a store that agrees with the plain buckets. */
  lemma ScriptAgrees(p: Plan, h: map<Key, Stored>, m: map<Key, Bucket>, a: ServerAsk, lead: real, spread: real)
    requires Positive(p) && Settled(Buckets(h), a.ask.now) && Agree(p, Buckets(h), m, a.ask.now)
    requires Dated(p, h, lead, spread) && lead <= a.serverNow - a.ask.now <= lead + spread
    requires a.gone && a.ask.key in h ==> a.serverNow >= h[a.ask.key].deadline
    requires (Ttl(p) as real - spread) * p.rate >= p.burst as real
    ensures ScriptTake(p, Visible(Find(h, a.ask.key), a.gone), a.ask.now, a.ask.n)
         == Take(p, Find(m, a.ask.key), a.ask.now, a.ask.n)
  {
    var k := a.ask.key;
    assert SameLevel(p, Buckets(h), m, a.ask.now, k);
    if k in h {
      assert Buckets(h)[k] == h[k].bucket;
      if a.gone { ExpiredIsFull(p, h[k], lead, spread, a.ask.now, a.serverNow); }
    }
  }

  lemma {:induction false} RedisRefines(p: Plan, h: map<Key, Stored>, m: map<Key, Bucket>, t: real,
                                        asks: seq<ServerAsk>, lead: real, spread: real)
    requires Positive(p) && Settled(Buckets(h), t) && Settled(m, t) && Agree(p, Buckets(h), m, t)
    requires Dated(p, h, lead, spread) && Skew(asks, lead, spread)
    requires ServerClock(asks, t) && Punctual(p, h, asks)
    requires (Ttl(p) as real - spread) * p.rate >= p.burst as real
    ensures RunRedis(p, h, asks) == Run(p, m, Plainly(asks))
    decreases |asks|
  {
    if asks != [] {
      var a := asks[0];
      AgreeLater(p, Buckets(h), m, t, a.ask.now);
      ScriptAgrees(p, h, m, a, lead, spread);
      var b := AgreeingTake(p, Buckets(h), m, a.ask);
      var h' := h[a.ask.key := Stored(b, a.serverNow + Ttl(p) as real)];
      assert Buckets(h') == Buckets(h)[a.ask.key := b];
      TakeSettled(p, Find(m, a.ask.key), a.ask.now, a.ask.n);
      RedisRefines(p, h', m[a.ask.key := b], a.ask.now, asks[1..], lead, spread);
      assert ([a.ask] + Plainly(asks[1..]))[1..] == Plainly(asks[1..]);
    }
  }

  /** The time-to-live leaves one second to spare. */
  lemma TtlCoversRefill(p: Plan)
    requires Positive(p)
    ensures (Ttl(p) as real - 1.0) * p.rate >= p.burst as real
  {
    var refill := p.burst as real / p.rate;
    var c := Ceil(refill) as real;
    assert refill * p.rate == p.burst as real;
    assert c * p.rate == refill * p.rate + (c - refill) * p.rate;
    MulNonNegative(c - refill, p.rate);
  }

  /** The script with key expiry decides like the in-memory limiter on every call sequence, with up to one
      second of disagreement between the clocks. */
  lemma RedisIsLimiter(p: Plan, t: real, asks: seq<ServerAsk>, lead: real)
    requires Positive(p) && ServerClock(asks, t) && Punctual(p, map[], asks) && Skew(asks, lead, 1.0)
    ensures RunRedis(p, map[], asks) == Run(p, map[], Plainly(asks))
  {
    TtlCoversRefill(p);
    RedisRefines(p, map[], map[], t, asks, lead, 1.0);
  }

  /** A key that expires on the server at `ttl`, when the caller's clock shows `now`. */
  lemma EarlyExpiry(p: Plan, k: Key, now: real)
    requires Positive(p) && 0.0 <= now && now * p.rate < p.burst as real
    ensures
      var ttl := Ttl(p) as real;
      var asks := [ServerAsk(Ask(k, 0.0, p.burst), 0.0, false), ServerAsk(Ask(k, now, p.burst), ttl, true)];
      && ServerClock(asks, 0.0) && Punctual(p, map[], asks)
      && RunRedis(p, map[], asks) == [true, true] && Run(p, map[], Plainly(asks)) == [true, false]
  {
    var ttl := Ttl(p) as real;
    var a0, a1 := ServerAsk(Ask(k, 0.0, p.burst), 0.0, false), ServerAsk(Ask(k, now, p.burst), ttl, true);
    assert [a0, a1][1..] == [a1] && [a1][1..] == [];
    assert [a0.ask, a1.ask][1..] == [a1.ask] && [a1.ask][1..] == [];
    var h := map[k := Stored(Bucket(0.0, 0.0), 0.0 + ttl)];
    assert Take(p, None, 0.0, p.burst) == (Bucket(0.0, 0.0), true);
    assert map[][k := Stored(Bucket(0.0, 0.0), 0.0 + ttl)] == h;
    assert RunRedis(p, h, [a1]) == [true];
    assert Punctual(p, h, [a1]);
    assert ServerClock([a1], 0.0);
    assert Plainly([a1]) == [a1.ask];
    assert Plainly([a0, a1]) == [a0.ask] + Plainly([a1]);
    assert Run(p, map[k := Bucket(0.0, 0.0)], [a1.ask]) == [false];
    assert map[][k := Bucket(0.0, 0.0)] == map[k := Bucket(0.0, 0.0)];
  }

  lemma SpreadIsWide(ttl: real, spread: real, rate: real, burst: real)
    requires rate >= 0.0 && (ttl - 1.0) * rate >= burst && (ttl - spread) * rate < burst
    ensures spread > 1.0
  {
    if spread <= 1.0 { MulNonNegative(1.0 - spread, rate); }
  }

  /** The condition on the clocks is exact: with every spread that the time-to-live does not cover, an expired
      key can give a spent bucket back too early. */
  lemma WideSkewShows(p: Plan, k: Key, spread: real)
    requires Positive(p) && (Ttl(p) as real - spread) * p.rate < p.burst as real
    ensures
      var ttl := Ttl(p) as real;
      var now := if spread <= ttl then ttl - spread else 0.0;
      var asks := [ServerAsk(Ask(k, 0.0, p.burst), 0.0, false), ServerAsk(Ask(k, now, p.burst), ttl, true)];
      && ServerClock(asks, 0.0) && Punctual(p, map[], asks) && Skew(asks, 0.0, spread)
      && RunRedis(p, map[], asks) == [true, true] && Run(p, map[], Plainly(asks)) == [true, false]
  {
    var ttl := Ttl(p) as real;
    TtlCoversRefill(p);
    SpreadIsWide(ttl, spread, p.rate, p.burst as real);
    EarlyExpiry(p, k, if spread <= ttl then ttl - spread else 0.0);
  }

  // ------------------------------------------------ the rate bound

  /** The tokens granted to `asks`, which all concern the one bucket `b`. */
  function Granted(p: Plan, b: Option<Bucket>, asks: seq<Ask>): real
    decreases |asks|
  {
    if asks == [] then 0.0
    else
      var r := Take(p, b, asks[0].now, asks[0].n);
      (if r.1 then asks[0].n as real else 0.0) + Granted(p, Some(r.0), asks[1..])
  }

  // The bound is proved with time measured in tokens (seconds times rate), where it is linear.

  function UnitLevel(burst: real, b: Option<Bucket>, now: real): real {
    match b case None => burst case Some(b) => Min(b.tokens + (now - b.last), burst)
  }

  function UnitTake(burst: real, b: Option<Bucket>, now: real, n: int): (Bucket, bool) {
    Settle(UnitLevel(burst, b, now), now, n)
  }

  function UnitGranted(burst: real, b: Option<Bucket>, asks: seq<Ask>): real
    decreases |asks|
  {
    if asks == [] then 0.0
    else
      var r := UnitTake(burst, b, asks[0].now, asks[0].n);
      (if r.1 then asks[0].n as real else 0.0) + UnitGranted(burst, Some(r.0), asks[1..])
  }

  lemma {:induction false} UnitBound(burst: real, b: Option<Bucket>, asks: seq<Ask>)
    requires asks != [] && burst >= 0.0 && SettledBucket(b, asks[0].now) && ClockFrom(asks, asks[0].now)
    ensures UnitGranted(burst, b, asks)
         <= UnitLevel(burst, b, asks[0].now) + (asks[|asks| - 1].now - asks[0].now)
    decreases |asks|
  {
    var r := UnitTake(burst, b, asks[0].now, asks[0].n);
    if |asks| > 1 {
      UnitBound(burst, Some(r.0), asks[1..]);
    } else {
      assert asks[1..] == [];
    }
  }

  function ScaledBucket(p: Plan, b: Option<Bucket>): Option<Bucket> {
    match b case None => None case Some(b) => Some(Bucket(b.tokens, Gain(p.rate, b.last)))
  }

  function ScaledAsk(p: Plan, a: Ask): Ask { a.(now := Gain(p.rate, a.now)) }

  function ScaledAsks(p: Plan, asks: seq<Ask>): (r: seq<Ask>)
    ensures |r| == |asks| && forall i :: 0 <= i < |r| ==> r[i] == ScaledAsk(p, asks[i])
  {
    if asks == [] then [] else [ScaledAsk(p, asks[0])] + ScaledAsks(p, asks[1..])
  }

  lemma GainDifference(rate: real, a: real, b: real)
    ensures Gain(rate, a - b) == Gain(rate, a) - Gain(rate, b)
  {
  }

  lemma TakeScales(p: Plan, b: Option<Bucket>, a: Ask)
    ensures
      var r, u := Take(p, b, a.now, a.n), UnitTake(p.burst as real, ScaledBucket(p, b), Gain(p.rate, a.now), a.n);
      u.1 == r.1 && Some(u.0) == ScaledBucket(p, Some(r.0))
  {
    if b.Some? { GainDifference(p.rate, a.now, b.value.last); }
  }

  lemma {:induction false} GrantedScales(p: Plan, b: Option<Bucket>, asks: seq<Ask>)
    ensures Granted(p, b, asks) == UnitGranted(p.burst as real, ScaledBucket(p, b), ScaledAsks(p, asks))
    decreases |asks|
  {
    if asks != [] {
      TakeScales(p, b, asks[0]);
      var scaled := ScaledAsks(p, asks);
      assert scaled[0] == ScaledAsk(p, asks[0]);
      assert scaled[1..] == ScaledAsks(p, asks[1..]);
      GrantedScales(p, Some(Take(p, b, asks[0].now, asks[0].n).0), asks[1..]);
    }
  }

  lemma GainMonotone(p: Plan, t: real, t': real)
    requires Positive(p) && t <= t'
    ensures Gain(p.rate, t) <= Gain(p.rate, t')
  {
    GainDifference(p.rate, t', t);
    MulNonNegative(t' - t, p.rate);
  }

  lemma {:induction false} ScaledClock(p: Plan, asks: seq<Ask>, t: real)
    requires Positive(p) && ClockFrom(asks, t)
    ensures ClockFrom(ScaledAsks(p, asks), Gain(p.rate, t))
    decreases |asks|
  {
    if asks != [] {
      GainMonotone(p, t, asks[0].now);
      ScaledClock(p, asks[1..], asks[0].now);
      assert ScaledAsks(p, asks)[1..] == ScaledAsks(p, asks[1..]);
    }
  }

  lemma GrantedInTokens(p: Plan, b: Option<Bucket>, asks: seq<Ask>)
    requires Positive(p) && asks != [] && SettledBucket(b, asks[0].now) && ClockFrom(asks, asks[0].now)
    ensures Granted(p, b, asks)
         <= p.burst as real + Gain(p.rate, asks[|asks| - 1].now) - Gain(p.rate, asks[0].now)
  {
    GrantedScales(p, b, asks);
    ScaledClock(p, asks, asks[0].now);
    if b.Some? { GainMonotone(p, b.value.last, asks[0].now); }
    UnitBound(p.burst as real, ScaledBucket(p, b), ScaledAsks(p, asks));
  }

  /** The bucket after a run. */
  function AfterAll(p: Plan, b: Option<Bucket>, asks: seq<Ask>): Option<Bucket>
    decreases |asks|
  {
    if asks == [] then b else AfterAll(p, Some(Take(p, b, asks[0].now, asks[0].n).0), asks[1..])
  }

  lemma {:induction false} AfterAllSettled(p: Plan, b: Option<Bucket>, t: real, asks: seq<Ask>, more: seq<Ask>)
    requires Positive(p) && SettledBucket(b, t) && ClockFrom(asks + more, t) && more != []
    ensures SettledBucket(AfterAll(p, b, asks), more[0].now) && ClockFrom(more, more[0].now)
    decreases |asks|
  {
    if asks == [] {
      assert asks + more == more;
    } else {
      assert (asks + more)[1..] == asks[1..] + more;
      TakeSettled(p, b, asks[0].now, asks[0].n);
      AfterAllSettled(p, Some(Take(p, b, asks[0].now, asks[0].n).0), asks[0].now, asks[1..], more);
    }
  }

  /** Over any time interval [from, to] of any run of one bucket, whatever came before, the tokens granted are
      at most burst + rate * (to - from). */
  lemma GrantedWithinBound(p: Plan, t0: real, before: seq<Ask>, during: seq<Ask>, from: real, to: real)
    requires Positive(p) && ClockFrom(before + during, t0) && during != []
    requires from <= during[0].now && during[|during| - 1].now <= to
    ensures Granted(p, AfterAll(p, None, before), during) <= p.burst as real + Gain(p.rate, to - from)
  {
    AfterAllSettled(p, None, t0, before, during);
    GrantedInTokens(p, AfterAll(p, None, before), during);
    GainMonotone(p, from, during[0].now);
    GainMonotone(p, during[|during| - 1].now, to);
    GainDifference(p.rate, to, from);
  }

  /** With requests for non-negative amounts the stored tokens stay within 0..burst. */
  lemma {:induction false} TokensWithinBurst(p: Plan, b: Option<Bucket>, t: real, asks: seq<Ask>)
    requires Positive(p) && SettledBucket(b, t) && ClockFrom(asks, t)
    requires b.Some? ==> b.value.tokens <= p.burst as real
    requires forall i :: 0 <= i < |asks| ==> asks[i].n >= 0
    ensures AfterAll(p, b, asks).Some? ==> 0.0 <= AfterAll(p, b, asks).value.tokens <= p.burst as real
    decreases |asks|
  {
    if asks != [] {
      TakeSettled(p, b, asks[0].now, asks[0].n);
      TokensWithinBurst(p, Some(Take(p, b, asks[0].now, asks[0].n).0), asks[0].now, asks[1..]);
    }
  }

  /** The level is capped even where the stored tokens are not. */
  lemma LevelAgain(p: Plan, tokens: real, now: real)
    ensures Level(p, Some(Bucket(tokens, now)), now) == Min(tokens, p.burst as real)
  {
    assert now - now == 0.0;
  }

  function Least(a: int, b: int): int { if a <= b then a else b }

  /** Requests must not be negative: one on a full bucket stores more than the burst, and between two requests at
      the same instant it lets more than the burst through. */
  lemma NegativeAskBreaksBound(p: Plan, k: Key, now: real, n: int)
    requires Positive(p) && n < 0
    ensures AfterAll(p, None, [Ask(k, now, n)]) == Some(Bucket((p.burst - n) as real, now))
    ensures Run(p, map[], [Ask(k, now, p.burst), Ask(k, now, n), Ask(k, now, Least(-n, p.burst))]) == [true, true, true]
  {
    var a0, a1, a2 := Ask(k, now, p.burst), Ask(k, now, n), Ask(k, now, Least(-n, p.burst));
    assert [a1][1..] == [] && [a0, a1, a2][1..] == [a1, a2] && [a1, a2][1..] == [a2] && [a2][1..] == [];
    var b0, b1 := Bucket(0.0, now), Bucket(-n as real, now);
    LevelNow(p, 0.0, now);
    assert Take(p, None, now, p.burst) == (b0, true) && Take(p, Some(b0), now, n) == (b1, true);
    LevelAgain(p, -n as real, now);
    assert Take(p, Some(b1), now, a2.n).1;
    var m0: map<Key, Bucket>, m1: map<Key, Bucket> := map[k := b0], map[k := b1];
    assert map[][k := b0] == m0 && m0[k := b1] == m1;
    assert Run(p, m1, [a2]) == [true];
    assert Run(p, m0, [a1, a2]) == [true, true];
  }
}
