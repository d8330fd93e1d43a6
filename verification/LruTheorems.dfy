/** What the cache guarantees over every sequence of operations. */
module LruTheorems {
  import opened Wrappers
  import opened Lru

  // ------------------------------------------------ shape

  predicate Sound(l: seq<Item>, max: nat) {
    Unique(l) && |l| <= max
  }

  lemma FrontUnique(it: Item, l: seq<Item>)
    requires Unique(l)
    ensures Unique([it] + Filter(l, Other(it.key)))
  {
    FilterUnique(l, Other(it.key));
    FilterSub(l, Other(it.key));
    var f := Filter(l, Other(it.key));
    forall i | 0 <= i < |f| ensures f[i].key != it.key {
      assert f[i] in f;
    }
  }

  lemma SoundStep(l: seq<Item>, max: nat, op: Op)
    requires Sound(l, max) && max >= 1
    ensures Sound(Apply(l, max, op), max)
  {
    match op {
      case Delete(k) =>
        FilterUnique(l, Other(k));
        FilterSub(l, Other(k));
      case Cleanup(now) =>
        FilterUnique(l, Unexpired(now));
        FilterSub(l, Unexpired(now));
      case Get(k, now) =>
        FilterUnique(l, Other(k));
        FilterSub(l, Other(k));
        RemoveLength(l, k);
        if Lookup(l, k).Some? {
          LookupSome(l, k);
          FrontUnique(Lookup(l, k).value, l);
        }
      case Set(k, v, ttl, now) =>
        FrontUnique(Item(k, v, now + ttl), l);
        RemoveLength(l, k);
        if Lookup(l, k).None? {
          LookupNone(l, k);
          FilterAll(l, Other(k));
        }
    }
  }

  lemma {:induction false} RunSound(max: nat, ops: seq<Op>)
    requires max >= 1
    ensures Sound(Run(max, ops), max)
  {
    if ops != [] {
      RunSound(max, ops[..|ops| - 1]);
      SoundStep(Run(max, ops[..|ops| - 1]), max, ops[|ops| - 1]);
    }
  }

  // ------------------------------------------------ LRU inclusion

  /** The smaller list is the larger one restricted to `ks`, and is not too much shorter. */
  predicate Included(s: seq<Item>, max: nat, l: seq<Item>, max': nat, ks: set<Key>) {
    && s == Filter(l, Among(ks))
    && |l| - |s| <= max' - max
  }

  lemma InclusionGet(s: seq<Item>, max: nat, l: seq<Item>, max': nat, ks: set<Key>, k: Key, now: int)
    requires Sound(l, max') && Included(s, max, l, max', ks)
    ensures Included(AfterGet(s, k, now), max, AfterGet(l, k, now), max', ks)
    ensures Hit(s, k, now).Some? ==> Hit(l, k, now) == Hit(s, k, now)
  {
    FilterUnique(l, Among(ks));
    LookupFilter(l, Among(ks), k);
    FilterTwice(l, Among(ks), Other(k), Other(k), Among(ks));
    RemoveLength(l, k);
    RemoveLength(s, k);
    if Lookup(l, k).Some? {
      LookupSome(l, k);
      var it, rest := Lookup(l, k).value, Filter(l, Other(k));
      assert ([it] + rest)[1..] == rest;
      if Lookup(s, k).None? {
        LookupNone(s, k);
        FilterAll(s, Other(k));
      }
    }
  }

  lemma InclusionRemove(s: seq<Item>, max: nat, l: seq<Item>, max': nat, ks: set<Key>, keep: Item -> bool)
    requires Included(s, max, l, max', ks)
    ensures Included(Filter(s, keep), max, Filter(l, keep), max', ks)
  {
    FilterTwice(l, Among(ks), keep, keep, Among(ks));
    FilterLoss(l, Among(ks), keep);
  }

  /** A sublist loses at most as many items to a filter as the list it comes from. */
  lemma {:induction false} FilterLoss(l: seq<Item>, p: Item -> bool, keep: Item -> bool)
    ensures |Filter(l, p)| - |Filter(Filter(l, p), keep)| <= |l| - |Filter(l, keep)|
    decreases |l|
  {
    if l != [] {
      FilterLoss(l[1..], p, keep);
      assert ([l[0]] + Filter(l[1..], p))[1..] == Filter(l[1..], p);
      FilterSub(l[1..], keep);
    }
  }

  /** Before eviction, a Set puts the item at the front of both lists. */
  lemma InclusionFront(s: seq<Item>, l: seq<Item>, ks: set<Key>, it: Item)
    requires s == Filter(l, Among(ks))
    ensures [it] + Filter(s, Other(it.key)) == Filter([it] + Filter(l, Other(it.key)), Among(ks + {it.key}))
  {
    var k, rest := it.key, Filter(l, Other(it.key));
    assert ([it] + rest)[1..] == rest;
    FilterTwice(l, Among(ks), Other(k), Other(k), Among(ks + {k}));
  }

  lemma LastInBoth(s: seq<Item>, l: seq<Item>, ks: set<Key>)
    requires s == Filter(l, Among(ks)) && l != [] && l[|l| - 1].key in ks
    ensures s != [] && s[|s| - 1] == l[|l| - 1]
  {
    var x := l[|l| - 1];
    assert l == l[..|l| - 1] + [x];
    FilterConcat(l[..|l| - 1], [x], Among(ks));
    assert [x][1..] == [];
    assert Filter([x], Among(ks)) == [x];
  }

  /** One eviction in both lists. */
  lemma InclusionEvictBoth(s: seq<Item>, l: seq<Item>, ks: set<Key>)
    requires s == Filter(l, Among(ks)) && Unique(l) && l != [] && s != []
    ensures s[..|s| - 1] == Filter(l[..|l| - 1], Among(ks - {s[|s| - 1].key}))
  {
    var x, y := l[|l| - 1].key, s[|s| - 1].key;
    FilterUnique(l, Among(ks));
    DropLast(l);
    DropLast(s);
    if x in ks { LastInBoth(s, l, ks); }
    FilterTwice(l, Among(ks), Other(y), Other(x), Among(ks - {y}));
  }

  /** One eviction in the smaller list only. */
  lemma InclusionEvictSmall(s: seq<Item>, l: seq<Item>, ks: set<Key>)
    requires s == Filter(l, Among(ks)) && Unique(l) && s != []
    ensures s[..|s| - 1] == Filter(l, Among(ks - {s[|s| - 1].key}))
  {
    var y := s[|s| - 1].key;
    FilterUnique(l, Among(ks));
    DropLast(s);
    FilterTwice(l, Among(ks), Other(y), Among(ks - {y}), Among(ks - {y}));
    FilterSub(l, Among(ks - {y}));
    FilterAll(Filter(l, Among(ks - {y})), Among(ks - {y}));
  }

  /** A Set is a move to the front followed by an eviction that is empty for a present key. */
  lemma SetIsFrontThenEvict(l: seq<Item>, max: nat, it: Item)
    requires Sound(l, max)
    ensures AfterSet(l, max, it) == Evict([it] + Filter(l, Other(it.key)), max)
    ensures |Filter(l, Other(it.key))| == |l| - (if Lookup(l, it.key).Some? then 1 else 0)
  {
    RemoveLength(l, it.key);
    if Lookup(l, it.key).None? {
      LookupNone(l, it.key);
      FilterAll(l, Other(it.key));
    }
  }

  lemma InclusionSet(s: seq<Item>, max: nat, l: seq<Item>, max': nat, ks: set<Key>, it: Item) returns (ks': set<Key>)
    requires Sound(s, max) && Sound(l, max') && 1 <= max <= max' && Included(s, max, l, max', ks)
    ensures Included(AfterSet(s, max, it), max, AfterSet(l, max', it), max', ks')
  {
    var k := it.key;
    SetIsFrontThenEvict(s, max, it);
    SetIsFrontThenEvict(l, max', it);
    LookupFilter(l, Among(ks), k);
    InclusionFront(s, l, ks, it);
    FrontUnique(it, l);
    var s1, l1 := [it] + Filter(s, Other(k)), [it] + Filter(l, Other(k));
    ks' := ks + {k};
    if |s1| > max {
      if |l1| > max' {
        InclusionEvictBoth(s1, l1, ks');
      } else {
        InclusionEvictSmall(s1, l1, ks');
      }
      ks' := ks' - {s1[|s1| - 1].key};
    }
  }

  lemma InclusionStep(s: seq<Item>, max: nat, l: seq<Item>, max': nat, ks: set<Key>, op: Op) returns (ks': set<Key>)
    requires Sound(s, max) && Sound(l, max') && 1 <= max <= max' && Included(s, max, l, max', ks)
    ensures Included(Apply(s, max, op), max, Apply(l, max', op), max', ks')
  {
    ks' := ks;
    match op {
      case Get(k, now) => InclusionGet(s, max, l, max', ks, k, now);
      case Set(k, v, ttl, now) => ks' := InclusionSet(s, max, l, max', ks, Item(k, v, now + ttl));
      case Delete(k) => InclusionRemove(s, max, l, max', ks, Other(k));
      case Cleanup(now) => InclusionRemove(s, max, l, max', ks, Unexpired(now));
    }
  }

  lemma {:induction false} InclusionRun(max: nat, max': nat, ops: seq<Op>) returns (ks: set<Key>)
    requires 1 <= max <= max'
    ensures Included(Run(max, ops), max, Run(max', ops), max', ks)
    decreases |ops|
  {
    ks := {};
    if ops != [] {
      var front := ops[..|ops| - 1];
      ks := InclusionRun(max, max', front);
      RunSound(max, front);
      RunSound(max', front);
      ks := InclusionStep(Run(max, front), max, Run(max', front), max', ks, ops[|ops| - 1]);
    }
  }

  /** Where the items of a filtered list come from, in order. */
  predicate Positions(l: seq<Item>, f: seq<Item>, at: seq<nat>) {
    && |at| == |f|
    && (forall i :: 0 <= i < |at| ==> at[i] < |l| && l[at[i]] == f[i])
    && (forall i, j :: 0 <= i < j < |at| ==> at[i] < at[j])
  }

  /** `s` is `l` with some items left out. */
  ghost predicate Subsequence(s: seq<Item>, l: seq<Item>) { exists at: seq<nat> :: Positions(l, s, at) }

  lemma ShiftPositions(l: seq<Item>, f: seq<Item>, rest: seq<nat>) returns (at: seq<nat>)
    requires l != [] && Positions(l[1..], f, rest)
    ensures Positions(l, f, at) && forall i :: 0 <= i < |at| ==> at[i] > 0
  {
    at := seq(|rest|, i requires 0 <= i < |rest| => rest[i] + 1);
  }

  lemma ConsPositions(l: seq<Item>, f: seq<Item>, at: seq<nat>)
    requires l != [] && Positions(l, f, at) && forall i :: 0 <= i < |at| ==> at[i] > 0
    ensures Positions(l, [l[0]] + f, [0] + at)
  {
  }

  lemma {:induction false} FilterPositions(l: seq<Item>, p: Item -> bool) returns (at: seq<nat>)
    ensures Positions(l, Filter(l, p), at)
    decreases |l|
  {
    at := [];
    if l != [] {
      at := FilterPositions(l[1..], p);
      at := ShiftPositions(l, Filter(l[1..], p), at);
      if p(l[0]) {
        ConsPositions(l, Filter(l[1..], p), at);
        at := [0] + at;
      }
    }
  }

  /** Growing the cache never turns a hit into a miss: on the same operations the larger cache holds every
      entry of the smaller one, in the same recency order, and answers its hits the same way. */
  lemma LargerCacheIncludesSmaller(max: nat, max': nat, ops: seq<Op>, k: Key, now: int)
    requires 1 <= max <= max'
    ensures Subsequence(Run(max, ops), Run(max', ops))
    ensures Lookup(Run(max, ops), k).Some? ==> Lookup(Run(max', ops), k) == Lookup(Run(max, ops), k)
    ensures Hit(Run(max, ops), k, now).Some? ==> Hit(Run(max', ops), k, now) == Hit(Run(max, ops), k, now)
  {
    var s, l := Run(max, ops), Run(max', ops);
    var ks := InclusionRun(max, max', ops);
    var at := FilterPositions(l, Among(ks));
    RunSound(max', ops);
    LookupFilter(l, Among(ks), k);
  }

  // ------------------------------------------------ agreement with a plain timestamped map

  datatype Stamp = Stamp(value: Value, expiresAt: int)

  /** The reference: the last Set of every key that was not deleted since. */
  function Plain(ops: seq<Op>): map<Key, Stamp> {
    if ops == [] then map[]
    else
      var m := Plain(ops[..|ops| - 1]);
      match ops[|ops| - 1]
      case Set(k, v, ttl, now) => m[k := Stamp(v, now + ttl)]
      case Delete(k) => m - {k}
      case _ => m
  }

  predicate Agrees(l: seq<Item>, m: map<Key, Stamp>) {
    forall i :: 0 <= i < |l| ==> l[i].key in m && m[l[i].key] == Stamp(l[i].value, l[i].expiresAt)
  }

  lemma AgreesFilter(l: seq<Item>, p: Item -> bool, m: map<Key, Stamp>)
    requires Agrees(l, m)
    ensures Agrees(Filter(l, p), m)
  {
    FilterSub(l, p);
    var f := Filter(l, p);
    forall i | 0 <= i < |f| ensures f[i].key in m && m[f[i].key] == Stamp(f[i].value, f[i].expiresAt) {
      assert f[i] in l;
    }
  }

  lemma AgreesOthers(l: seq<Item>, k: Key, m: map<Key, Stamp>, m': map<Key, Stamp>)
    requires Agrees(l, m)
    requires forall k' :: k' != k && k' in m ==> k' in m' && m'[k'] == m[k']
    ensures Agrees(Filter(l, Other(k)), m')
  {
    AgreesFilter(l, Other(k), m);
    FilterSub(l, Other(k));
    var f := Filter(l, Other(k));
    forall i | 0 <= i < |f| ensures f[i].key != k {
      assert f[i] in f;
    }
  }

  lemma {:induction false} RunAgrees(max: nat, ops: seq<Op>)
    requires max >= 1
    ensures Agrees(Run(max, ops), Plain(ops))
  {
    if ops != [] {
      var front, op := ops[..|ops| - 1], ops[|ops| - 1];
      var l, m, m' := Run(max, front), Plain(front), Plain(ops);
      RunAgrees(max, front);
      RunSound(max, front);
      match op {
        case Set(k, v, ttl, now) =>
          SetIsFrontThenEvict(l, max, Item(k, v, now + ttl));
          AgreesOthers(l, k, m, m');
        case Delete(k) => AgreesOthers(l, k, m, m');
        case Cleanup(now) => AgreesFilter(l, Unexpired(now), m);
        case Get(k, now) =>
          AgreesFilter(l, Other(k), m);
          if Lookup(l, k).Some? { LookupSome(l, k); }
      }
    }
  }

  /** A hit returns exactly the last value set, undeleted and unexpired. */
  lemma HitIsLastSet(max: nat, ops: seq<Op>, k: Key, now: int)
    requires max >= 1 && Hit(Run(max, ops), k, now).Some?
    ensures k in Plain(ops) && now <= Plain(ops)[k].expiresAt
    ensures Hit(Run(max, ops), k, now) == Some(Plain(ops)[k].value)
  {
    RunAgrees(max, ops);
    LookupSome(Run(max, ops), k);
  }

  // ------------------------------------------------ when a hit is certain

  /** The other keys set or hit since `k` was last set or hit; None when `k` was never set or was
      deleted since. */
  function Since(max: nat, ops: seq<Op>, k: Key): Option<set<Key>> {
    if ops == [] then None
    else
      var front, op := ops[..|ops| - 1], ops[|ops| - 1];
      var before := Since(max, front, k);
      match op
      case Set(k', _, _, _) => if k' == k then Some({}) else Touch(before, k')
      case Get(k', now) =>
        if Hit(Run(max, front), k', now).None? then before
        else if k' == k then Some({}) else Touch(before, k')
      case Delete(k') => if k' == k then None else before
      case Cleanup(_) => before
  }

  function Touch(o: Option<set<Key>>, k: Key): Option<set<Key>> {
    match o case None => None case Some(ks) => Some(ks + {k})
  }

  /** The clock never goes back, and stands at `now` or earlier. */
  predicate ClockUpTo(ops: seq<Op>, now: int) {
    && (forall i :: 0 <= i < |ops| && !ops[i].Delete? ==> ops[i].now <= now)
    && (forall i, j :: 0 <= i < j < |ops| && !ops[i].Delete? && !ops[j].Delete? ==> ops[i].now <= ops[j].now)
  }

  /** The keys in front of `k`. */
  function Ahead(l: seq<Item>, k: Key): set<Key> {
    if l == [] || l[0].key == k then {} else {l[0].key} + Ahead(l[1..], k)
  }

  /** `k` is in the list and only keys of `ks` are in front of it. */
  predicate Near(l: seq<Item>, k: Key, ks: set<Key>) {
    Lookup(l, k).Some? && Ahead(l, k) <= ks
  }

  lemma {:induction false} NearFilter(l: seq<Item>, p: Item -> bool, k: Key, ks: set<Key>)
    requires Near(l, k, ks) && p(Lookup(l, k).value)
    ensures Near(Filter(l, p), k, ks) && Lookup(Filter(l, p), k) == Lookup(l, k)
    decreases |l|
  {
    var f := Filter(l[1..], p);
    if l[0].key != k {
      NearFilter(l[1..], p, k, ks);
      assert ([l[0]] + f)[1..] == f;
    }
  }

  lemma NearFront(it: Item, l: seq<Item>, k: Key, ks: set<Key>)
    requires it.key != k && Near(l, k, ks)
    ensures Near([it] + Filter(l, Other(it.key)), k, ks + {it.key})
    ensures Lookup([it] + Filter(l, Other(it.key)), k) == Lookup(l, k)
  {
    LookupSome(l, k);
    NearFilter(l, Other(it.key), k, ks);
    var rest := Filter(l, Other(it.key));
    assert ([it] + rest)[1..] == rest;
  }

  /** Fewer than `max` keys in front of `k` means that eviction spares it. */
  lemma {:induction false} NearTake(l: seq<Item>, n: nat, k: Key)
    requires Unique(l) && Lookup(l, k).Some? && n <= |l| && |Ahead(l, k)| < n
    ensures Lookup(l[..n], k) == Lookup(l, k) && Ahead(l[..n], k) == Ahead(l, k)
    decreases |l|
  {
    if l[0].key != k {
      AheadAvoids(l[1..], k, l[0].key);
      NearTake(l[1..], n - 1, k);
      assert l[..n][1..] == l[1..][..n - 1];
    }
  }

  lemma {:induction false} AheadAvoids(l: seq<Item>, k: Key, absent: Key)
    requires forall i :: 0 <= i < |l| ==> l[i].key != absent
    ensures absent !in Ahead(l, k)
    decreases |l|
  {
    if l != [] { AheadAvoids(l[1..], k, absent); }
  }

  lemma SubsetSize(a: set<Key>, b: set<Key>)
    requires a <= b
    ensures |a| <= |b|
  {
    assert b == a + (b - a);
  }

  lemma NearEvict(l: seq<Item>, max: nat, k: Key, ks: set<Key>)
    requires Unique(l) && Near(l, k, ks) && |ks| < max
    ensures Near(Evict(l, max), k, ks) && Lookup(Evict(l, max), k) == Lookup(l, k)
  {
    SubsetSize(Ahead(l, k), ks);
    if |l| > max { NearTake(l, max, k); }
  }

  lemma NearSet(l: seq<Item>, max: nat, it: Item, k: Key, ks: set<Key>)
    requires Sound(l, max) && max >= 1 && Near(l, k, ks) && it.key != k && |ks + {it.key}| < max
    ensures Near(AfterSet(l, max, it), k, ks + {it.key})
  {
    SetIsFrontThenEvict(l, max, it);
    FrontUnique(it, l);
    NearFront(it, l, k, ks);
    NearEvict([it] + Filter(l, Other(it.key)), max, k, ks + {it.key});
  }

  lemma NearGet(l: seq<Item>, k': Key, now: int, k: Key, ks: set<Key>)
    requires k' != k && Near(l, k, ks)
    ensures Near(AfterGet(l, k', now), k, if Hit(l, k', now).Some? then ks + {k'} else ks)
  {
    LookupSome(l, k);
    if Lookup(l, k').Some? {
      LookupSome(l, k');
      NearFilter(l, Other(k'), k, ks);
      NearFront(Lookup(l, k').value, l, k, ks);
    }
  }

  /** One operation keeps `k` near, as long as it stays unexpired and few others are touched. */
  lemma NearStep(max: nat, front: seq<Op>, op: Op, k: Key, ks: set<Key>, ks': set<Key>)
    requires max >= 1
    requires Since(max, front, k) == Some(ks) && Near(Run(max, front), k, ks)
    requires Since(max, front + [op], k) == Some(ks') && |ks'| < max
    requires k in Plain(front) && (!op.Delete? ==> op.now <= Plain(front)[k].expiresAt)
    ensures Near(Apply(Run(max, front), max, op), k, ks')
  {
    var l := Run(max, front);
    assert (front + [op])[..|front + [op]| - 1] == front;
    RunSound(max, front);
    RunAgrees(max, front);
    LookupSome(l, k);
    match op {
      case Set(k', v, ttl, now) =>
        SetIsFrontThenEvict(l, max, Item(k', v, now + ttl));
        if k' != k { NearSet(l, max, Item(k', v, now + ttl), k, ks); }
      case Get(k', now) => if k' != k { NearGet(l, k', now, k, ks); }
      case Delete(k') => NearFilter(l, Other(k'), k, ks);
      case Cleanup(now) => NearFilter(l, Unexpired(now), k, ks);
    }
  }

  lemma {:induction false} StaysNear(max: nat, ops: seq<Op>, k: Key, now: int, ks: set<Key>)
    requires max >= 1 && ClockUpTo(ops, now)
    requires k in Plain(ops) && now <= Plain(ops)[k].expiresAt
    requires Since(max, ops, k) == Some(ks) && |ks| < max
    ensures Near(Run(max, ops), k, ks)
    decreases |ops|
  {
    var front, op := ops[..|ops| - 1], ops[|ops| - 1];
    assert ops == front + [op];
    if op.Set? && op.key == k {
      RunSound(max, front);
      SetIsFrontThenEvict(Run(max, front), max, Item(k, op.value, op.now + op.ttl));
    } else {
      assert Plain(front)[k] == Plain(ops)[k];
      SinceDefined(max, front, k);
      var before := Since(max, front, k).value;
      if op.Get? && op.key == k && Hit(Run(max, front), k, op.now).Some? {
        LookupSome(Run(max, front), k);
      } else {
        assert before <= ks;
        SubsetSize(before, ks);
        StaysNear(max, front, k, now, before);
        NearStep(max, front, op, k, before, ks);
      }
    }
  }

  /** A key in the reference map has a last touch. */
  lemma {:induction false} SinceDefined(max: nat, ops: seq<Op>, k: Key)
    requires k in Plain(ops)
    ensures Since(max, ops, k).Some?
    decreases |ops|
  {
    var front, op := ops[..|ops| - 1], ops[|ops| - 1];
    if !(op.Set? && op.key == k) {
      SinceDefined(max, front, k);
    }
  }

  /** Get must hit when the reference map has the key unexpired and fewer than maxSize distinct other keys
      were set or hit since the key's last set or hit; and it returns the reference value. */
  lemma HitIsCertain(max: nat, ops: seq<Op>, k: Key, now: int)
    requires max >= 1 && ClockUpTo(ops, now)
    requires k in Plain(ops) && now <= Plain(ops)[k].expiresAt
    requires Since(max, ops, k).Some? && |Since(max, ops, k).value| < max
    ensures Hit(Run(max, ops), k, now) == Some(Plain(ops)[k].value)
  {
    StaysNear(max, ops, k, now, Since(max, ops, k).value);
    RunAgrees(max, ops);
    LookupSome(Run(max, ops), k);
  }
}
