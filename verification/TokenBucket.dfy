/**
 The token buckets of internal/ratelimit/limiter.go, internal/ratelimit/redis.go
 and internal/auth/auth.go.  Token amounts and times in seconds are reals; each
 call reads the clock once.
 */
module TokenBucket {
  import opened Wrappers

  type Key = string

  /** The two fields every bucket stores. */
  datatype Bucket = Bucket(tokens: real, last: real)

  /** Tokens per second and the size of a bucket. */
  datatype Plan = Plan(rate: real, burst: int)

  predicate Positive(p: Plan) { p.rate > 0.0 && p.burst > 0 }

  function Min(a: real, b: real): real { if a > b then b else a }

  /** Tokens gained over a time. */
  function Gain(rate: real, seconds: real): real { seconds * rate }

  // ------------------------------------------------ the reference

  /** How many tokens a bucket offers at a time; a missing bucket is a full one. */
  function Level(p: Plan, b: Option<Bucket>, now: real): real {
    match b
    case None => p.burst as real
    case Some(b) => Min(b.tokens + Gain(p.rate, now - b.last), p.burst as real)
  }

  /** A bucket that has just been made is full. */
  lemma FreshIsFull(p: Plan, now: real)
    ensures Level(p, Some(Bucket(p.burst as real, now)), now) == p.burst as real
  {
    assert now - now == 0.0;
  }

  /** One request: granted exactly when the level covers it. */
  function Take(p: Plan, b: Option<Bucket>, now: real, n: int): (Bucket, bool) {
    Settle(Level(p, b, now), now, n)
  }

  function Settle(level: real, now: real, n: int): (Bucket, bool) {
    if level >= n as real then (Bucket(level - n as real, now), true) else (Bucket(level, now), false)
  }

  function Find<V>(m: map<Key, V>, k: Key): Option<V> {
    if k in m then Some(m[k]) else None
  }

  // ------------------------------------------------ internal/ratelimit/limiter.go

  function Clamp(rate: real, burst: int): (p: Plan)
    ensures Positive(p)
  {
    Plan(if rate <= 0.0 then 1.0 else rate, if burst <= 0 then 1 else burst)
  }

  class Limiter {
    const rate: real
    const burst: int
    var tokens: real
    var lastTime: real

    ghost function View(): Bucket
      reads this
    {
      Bucket(tokens, lastTime)
    }

    constructor (rate: real, burst: int, now: real)
      ensures this.rate == (if rate <= 0.0 then 1.0 else rate) && this.burst == (if burst <= 0 then 1 else burst)
      ensures View() == Bucket(this.burst as real, now)
    {
      this.rate := if rate <= 0.0 then 1.0 else rate;
      this.burst := if burst <= 0 then 1 else burst;
      tokens := (if burst <= 0 then 1 else burst) as real;
      lastTime := now;
    }

    method Refill(now: real)
      modifies this
      ensures View() == Bucket(Level(Plan(rate, burst), Some(old(View())), now), now)
    {
      var elapsed := now - lastTime;
      tokens := tokens + Gain(rate, elapsed);
      if tokens > burst as real {
        tokens := burst as real;
      }
      lastTime := now;
    }

    method AllowN(n: int, now: real) returns (ok: bool)
      modifies this
      ensures (View(), ok) == Take(Plan(rate, burst), Some(old(View())), now, n)
    {
      Refill(now);
      if tokens < n as real {
        return false;
      }
      tokens := tokens - n as real;
      ok := true;
    }
  }

  /** The per-key limiter; a limiter made for a new key starts full. */
  class RateLimiter {
    const rate: real
    const burst: int
    var limiters: map<Key, Limiter>

    ghost predicate Valid()
      reads this
    {
      && (forall k :: k in limiters ==> Plan(limiters[k].rate, limiters[k].burst) == Clamp(rate, burst))
      && (forall j, k :: j in limiters && k in limiters && j != k ==> limiters[j] != limiters[k])
    }

    ghost function View(): map<Key, Bucket>
      reads this, limiters.Values
    {
      map k | k in limiters :: limiters[k].View()
    }

    constructor (rate: real, burst: int)
      ensures Valid() && View() == map[] && this.rate == rate && this.burst == burst
    {
      this.rate, this.burst := rate, burst;
      limiters := map[];
    }

    method GetLimiter(key: Key, now: real) returns (l: Limiter)
      requires Valid()
      modifies this
      ensures Valid() && key in limiters && limiters[key] == l
      ensures forall k :: k in old(limiters) ==> k in limiters && limiters[k] == old(limiters)[k]
      ensures forall k :: k in limiters && k !in old(limiters) ==> k == key && fresh(l)
      ensures View() == if key in old(limiters) then old(View())
                        else old(View())[key := Bucket(Clamp(rate, burst).burst as real, now)]
    {
      if key in limiters {
        return limiters[key];
      }
      l := new Limiter(rate, burst, now);
      limiters := limiters[key := l];
    }

    /** One token from the limiter of a known key. */
    method TakeFrom(key: Key, l: Limiter, now: real) returns (ok: bool)
      requires Valid() && key in limiters && limiters[key] == l
      modifies l
      ensures Valid()
      ensures
        var r := Take(Clamp(rate, burst), Some(old(View())[key]), now, 1);
        View() == old(View())[key := r.0] && ok == r.1
    {
      ok := l.AllowN(1, now);
      assert forall k :: k in limiters && k != key ==> limiters[k].View() == old(limiters[k].View());
    }

    method Allow(key: Key, now: real) returns (ok: bool)
      requires Valid()
      modifies this, limiters.Values
      ensures Valid()
      ensures
        var r := Take(Clamp(rate, burst), Find(old(View()), key), now, 1);
        View() == old(View())[key := r.0] && ok == r.1
    {
      FreshIsFull(Clamp(rate, burst), now);
      var l := GetLimiter(key, now);
      ok := TakeFrom(key, l, now);
    }

    /** Cleanup drops the limiters last used before `now - maxAge`. */
    method Cleanup(now: real, maxAge: real)
      requires Valid()
      modifies this
      ensures Valid() && View() == Swept(old(View()), now - maxAge)
    {
      var cutoff := now - maxAge;
      var keys := limiters.Keys;
      while keys != {}
        invariant Valid() && keys <= old(limiters).Keys
        invariant limiters.Keys <= old(limiters).Keys
        invariant forall k :: k in limiters ==> limiters[k] == old(limiters)[k]
        invariant forall k :: k in keys ==> k in limiters
        invariant forall k :: k in old(limiters) && k !in keys ==>
          (k in limiters <==> old(limiters)[k].lastTime >= cutoff)
        decreases |keys|
      {
        var key :| key in keys;
        if limiters[key].lastTime < cutoff {
          limiters := limiters - {key};
        }
        keys := keys - {key};
      }
    }
  }

  function Swept(m: map<Key, Bucket>, cutoff: real): map<Key, Bucket> {
    map k | k in m && m[k].last >= cutoff :: m[k]
  }

  // ------------------------------------------------ internal/ratelimit/redis.go

  /** A bucket in Redis with the server time at which its key may expire. */
  datatype Stored = Stored(bucket: Bucket, deadline: real)

  /** math.ceil */
  function Ceil(x: real): (n: int)
    ensures n as real >= x && (n as real) < x + 1.0
  {
    -((-x).Floor)
  }

  /** The seconds given to EXPIRE. */
  function Ttl(p: Plan): int
    requires p.rate > 0.0
  {
    Ceil(p.burst as real / p.rate) + 1
  }

  /** The bucket the script works on: the stored one unless its key is gone. */
  function Visible(s: Option<Stored>, gone: bool): Option<Bucket> {
    if s.None? || gone then None else Some(s.value.bucket)
  }

  /** What the script writes back and returns; a clock that went back counts as no time. */
  function ScriptTake(p: Plan, b: Option<Bucket>, now: real, n: int): (Bucket, bool) {
    var r := Take(p, b, if b.Some? && now < b.value.last then b.value.last else now, n);
    (r.0.(last := now), r.1)
  }

  /** Redis as far as the script sees it. */
  class RedisServer {
    var hashes: map<Key, Stored>

    constructor ()
      ensures hashes == map[]
    {
      hashes := map[];
    }

    /** tokenBucketScript.  `serverNow` is the server's clock and `gone` says that the key, being past its
        deadline there, has been expired. */
    method Eval(p: Plan, key: Key, n: int, now: real, serverNow: real, gone: bool) returns (result: int)
      requires p.rate > 0.0
      modifies this
      ensures
        var r := ScriptTake(p, Visible(Find(old(hashes), key), gone), now, n);
        && hashes == old(hashes)[key := Stored(r.0, serverNow + Ttl(p) as real)]
        && result == if r.1 then 1 else 0
    {
      var tokens, lastTime;
      if key !in hashes || gone {
        tokens := p.burst as real;
        lastTime := now;
      } else {
        tokens := hashes[key].bucket.tokens;
        lastTime := hashes[key].bucket.last;
      }
      var elapsed := now - lastTime;
      if elapsed < 0.0 {
        elapsed := 0.0;
      }
      tokens := tokens + Gain(p.rate, elapsed);
      if tokens > p.burst as real {
        tokens := p.burst as real;
      }
      if tokens >= n as real {
        tokens := tokens - n as real;
        result := 1;
      } else {
        result := 0;
      }
      hashes := hashes[key := Stored(Bucket(tokens, now), serverNow + Ttl(p) as real)];
    }
  }

  // ------------------------------------------------ internal/auth/auth.go

  datatype AuthBucket = AuthBucket(tokens: real, maxTokens: real, refillRate: real, lastRefill: real)

  function AuthPlan(requestsPerMinute: int, burstSize: int): Plan {
    Plan(requestsPerMinute as real / 60.0, burstSize)
  }

  /** The rate limiter wired into the middleware. */
  class AuthRateLimiter {
    const enabled: bool
    const requestsPerMinute: int
    const burstSize: int
    var buckets: map<Key, AuthBucket>

    ghost predicate Valid()
      reads this
    {
      forall k :: k in buckets ==>
        && buckets[k].maxTokens == burstSize as real
        && buckets[k].refillRate == AuthPlan(requestsPerMinute, burstSize).rate
    }

    ghost function View(): map<Key, Bucket>
      reads this
    {
      map k | k in buckets :: Bucket(buckets[k].tokens, buckets[k].lastRefill)
    }

    constructor (enabled: bool, requestsPerMinute: int, burstSize: int)
      ensures Valid() && View() == map[]
      ensures this.enabled == enabled && this.requestsPerMinute == requestsPerMinute && this.burstSize == burstSize
    {
      this.enabled, this.requestsPerMinute, this.burstSize := enabled, requestsPerMinute, burstSize;
      buckets := map[];
    }

    method Allow(key: Key, now: real) returns (ok: bool)
      requires Valid()
      modifies this
      ensures Valid()
      ensures !enabled ==> ok && View() == old(View())
      ensures enabled ==>
        var r := Take(AuthPlan(requestsPerMinute, burstSize), Find(old(View()), key), now, 1);
        View() == old(View())[key := r.0] && ok == r.1
    {
      if !enabled {
        return true;
      }
      FreshIsFull(AuthPlan(requestsPerMinute, burstSize), now);
      var b;
      if key in buckets {
        b := buckets[key];
      } else {
        b := AuthBucket(burstSize as real, burstSize as real, requestsPerMinute as real / 60.0, now);
      }
      var elapsed := now - b.lastRefill;
      b := b.(tokens := b.tokens + Gain(b.refillRate, elapsed));
      if b.tokens > b.maxTokens {
        b := b.(tokens := b.maxTokens);
      }
      b := b.(lastRefill := now);
      ok := b.tokens >= 1.0;
      if ok {
        b := b.(tokens := b.tokens - 1.0);
      }
      buckets := buckets[key := b];
      ghost var r := Take(AuthPlan(requestsPerMinute, burstSize), Find(old(View()), key), now, 1);
      assert Bucket(b.tokens, b.lastRefill) == r.0;
    }
  }
}
