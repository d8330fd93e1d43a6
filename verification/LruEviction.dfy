/** Exactly when the cache still holds a key: expired, deleted and swept keys make room for others. */
module LruEviction {
  import opened Wrappers
  import opened Lru
  import opened LruTheorems

  // ------------------------------------------------ an expired key is as good as deleted

  lemma RunSnoc(max: nat, ops: seq<Op>, op: Op)
    ensures Run(max, ops + [op]) == Apply(Run(max, ops), max, op)
  {
    assert (ops + [op])[..|ops + [op]| - 1] == ops;
  }

  /** A Get that finds its key expired answers nothing and leaves the cache as Delete of the key would: one entry
      less, the others as they were. */
  lemma ExpiredGetIsDelete(max: nat, ops: seq<Op>, k: Key, now: int)
    requires max >= 1 && Lookup(Run(max, ops), k).Some? && Lookup(Run(max, ops), k).value.expiresAt < now
    ensures Hit(Run(max, ops), k, now).None?
    ensures Run(max, ops + [Get(k, now)]) == Run(max, ops + [Delete(k)])
    ensures |Run(max, ops + [Get(k, now)])| == |Run(max, ops)| - 1
    ensures Lookup(Run(max, ops + [Get(k, now)]), k).None?
    ensures forall other :: other != k ==>
      Lookup(Run(max, ops + [Get(k, now)]), other) == Lookup(Run(max, ops), other)
  {
    RunSound(max, ops);
    RunSnoc(max, ops, Get(k, now));
    RunSnoc(max, ops, Delete(k));
    RemoveLength(Run(max, ops), k);
    Removed(Run(max, ops), k);
  }

  lemma Removed(l: seq<Item>, k: Key)
    requires Unique(l)
    ensures Lookup(Filter(l, Other(k)), k).None?
    ensures forall other :: other != k ==> Lookup(Filter(l, Other(k)), other) == Lookup(l, other)
  {
    forall x ensures Lookup(Filter(l, Other(k)), x) == if x == k then None else Lookup(l, x) {
      LookupFilter(l, Other(k), x);
      if Lookup(l, x).Some? { LookupSome(l, x); }
    }
  }

  /** Cleanup leaves exactly the entries that are not expired. */
  lemma CleanupIs(max: nat, ops: seq<Op>, now: int, k: Key)
    requires max >= 1
    ensures
      var before, after := Lookup(Run(max, ops), k), Lookup(Run(max, ops + [Cleanup(now)]), k);
      after == if before.Some? && before.value.expiresAt >= now then before else None
  {
    RunSound(max, ops);
    RunSnoc(max, ops, Cleanup(now));
    LookupFilter(Run(max, ops), Unexpired(now), k);
  }

  // ------------------------------------------------ the keys in front

  /** The other keys held that were set or hit after `k` was: deleted, expired and swept ones are out again. */
  function InFront(max: nat, ops: seq<Op>, k: Key): set<Key> {
    if ops == [] then {}
    else
      var front, op := ops[..|ops| - 1], ops[|ops| - 1];
      var before := InFront(max, front, k);
      if Touches(max, front, op, k) then {}
      else match op
        case Set(k', _, _, _) => before + {k'}
        case Get(k', now) => if Hit(Run(max, front), k', now).Some? then before + {k'} else before - {k'}
        case Delete(k') => before - {k'}
        case Cleanup(now) => set x | x in before && !(x in Plain(front) && Plain(front)[x].expiresAt < now)
  }

  /** The operation sets `k`, or gets it and hits. */
  predicate Touches(max: nat, front: seq<Op>, op: Op, k: Key) {
    (op.Set? && op.key == k) || (op.Get? && op.key == k && Hit(Run(max, front), k, op.now).Some?)
  }

  /** Since `k` was last set or hit there were always fewer than `max` others in front. */
  predicate NeverCrowded(max: nat, ops: seq<Op>, k: Key) {
    ops != [] &&
    var front, op := ops[..|ops| - 1], ops[|ops| - 1];
    Touches(max, front, op, k) || (NeverCrowded(max, front, k) && |InFront(max, ops, k)| < max)
  }

  lemma {:induction false} AheadFilter(l: seq<Item>, p: Item -> bool, k: Key, x: Key)
    requires Unique(l) && Lookup(l, k).Some? && p(Lookup(l, k).value)
    ensures Lookup(Filter(l, p), k) == Lookup(l, k)
    ensures x in Ahead(l, k) ==> Lookup(l, x).Some?
    ensures x in Ahead(Filter(l, p), k) <==> x in Ahead(l, k) && p(Lookup(l, x).value)
    decreases |l|
  {
    var rest := l[1..];
    if l[0].key != k {
      AheadFilter(rest, p, k, x);
      AheadAvoids(rest, k, l[0].key);
      var f := Filter(rest, p);
      assert ([l[0]] + f)[1..] == f;
    }
  }

  lemma {:induction false} AheadTaken(l: seq<Item>, n: nat, k: Key)
    requires Unique(l) && Lookup(l, k).Some? && n <= |l|
    ensures |Ahead(l, k)| < |l|
    ensures Lookup(l[..n], k).Some? <==> |Ahead(l, k)| < n
    decreases |l|
  {
    var rest := l[1..];
    if l[0].key != k {
      AheadAvoids(rest, k, l[0].key);
      AheadTaken(rest, if n > 0 then n - 1 else 0, k);
      if n > 0 { assert l[..n][1..] == rest[..n - 1]; }
    }
  }

  lemma RemoveAhead(l: seq<Item>, k': Key, k: Key)
    requires Unique(l) && Lookup(l, k).Some? && k' != k
    ensures Lookup(Filter(l, Other(k')), k) == Lookup(l, k)
    ensures Ahead(Filter(l, Other(k')), k) == Ahead(l, k) - {k'}
  {
    LookupSome(l, k);
    forall x ensures x in Ahead(Filter(l, Other(k')), k) <==> x in Ahead(l, k) - {k'} {
      AheadFilter(l, Other(k'), k, x);
      if x in Ahead(l, k) { LookupSome(l, x); }
    }
    AheadFilter(l, Other(k'), k, k);
  }

  lemma FrontAhead(l: seq<Item>, it: Item, k: Key)
    requires Unique(l) && Lookup(l, k).Some? && it.key != k
    ensures Lookup([it] + Filter(l, Other(it.key)), k) == Lookup(l, k)
    ensures Ahead([it] + Filter(l, Other(it.key)), k) == Ahead(l, k) + {it.key}
  {
    RemoveAhead(l, it.key, k);
    var rest := Filter(l, Other(it.key));
    assert ([it] + rest)[1..] == rest;
  }

  /** `k` is held with exactly the keys `ks` in front. */
  predicate HeldBehind(l: seq<Item>, k: Key, ks: set<Key>) { Lookup(l, k).Some? && Ahead(l, k) == ks }

  lemma SetOther(l: seq<Item>, max: nat, it: Item, k: Key)
    requires Sound(l, max) && max >= 1 && Lookup(l, k).Some? && it.key != k
    ensures
      var l', ks := AfterSet(l, max, it), Ahead(l, k) + {it.key};
      if |ks| < max then HeldBehind(l', k, ks) else Lookup(l', k).None?
  {
    var all := [it] + Filter(l, Other(it.key));
    SetIsFrontThenEvict(l, max, it);
    FrontUnique(it, l);
    FrontAhead(l, it, k);
    AheadTaken(all, if |all| > max then max else |all|, k);
    if |all| > max && |Ahead(all, k)| < max { NearTake(all, max, k); }
  }

  lemma GetOther(l: seq<Item>, k': Key, now: int, k: Key)
    requires Unique(l) && Lookup(l, k).Some? && k' != k
    ensures HeldBehind(AfterGet(l, k', now), k,
      if Hit(l, k', now).Some? then Ahead(l, k) + {k'} else Ahead(l, k) - {k'})
  {
    if Lookup(l, k').Some? {
      LookupSome(l, k');
      FrontAhead(l, Lookup(l, k').value, k);
      RemoveAhead(l, k', k);
    } else {
      LookupNone(l, k');
      AheadAvoids(l, k, k');
    }
  }

  lemma CleanupOther(l: seq<Item>, now: int, k: Key, m: map<Key, Stamp>)
    requires Unique(l) && Agrees(l, m) && Lookup(l, k).Some? && now <= Lookup(l, k).value.expiresAt
    ensures HeldBehind(Filter(l, Unexpired(now)), k, set x | x in Ahead(l, k) && !(x in m && m[x].expiresAt < now))
  {
    forall x
      ensures x in Ahead(Filter(l, Unexpired(now)), k) <==> x in Ahead(l, k) && !(x in m && m[x].expiresAt < now)
    {
      AheadFilter(l, Unexpired(now), k, x);
      if x in Ahead(l, k) { LookupSome(l, x); }
    }
    AheadFilter(l, Unexpired(now), k, k);
  }

  lemma KeptSize(l: seq<Item>, max: nat, k: Key)
    requires Sound(l, max) && Lookup(l, k).Some?
    ensures |Ahead(l, k)| < max
  {
    AheadTaken(l, |l|, k);
  }

  /** A key not held comes back only by its own Set. */
  lemma AbsentStays(l: seq<Item>, max: nat, op: Op, k: Key)
    requires Sound(l, max) && max >= 1 && Lookup(l, k).None? && !(op.Set? && op.key == k)
    ensures Lookup(Apply(l, max, op), k).None?
  {
    LookupNone(l, k);
    match op {
      case Set(k', v, ttl, now) =>
        var it := Item(k', v, now + ttl);
        SetIsFrontThenEvict(l, max, it);
        Removed(l, k');
        var rest := Filter(l, Other(k'));
        assert ([it] + rest)[1..] == rest;
        LookupNone([it] + rest, k);
        LookupNone(Evict([it] + rest, max), k);
      case Get(k', now) =>
        Removed(l, k');
        if Lookup(l, k').Some? {
          LookupSome(l, k');
          var rest := Filter(l, Other(k'));
          assert ([Lookup(l, k').value] + rest)[1..] == rest;
        }
      case Delete(k') => Removed(l, k');
      case Cleanup(now) => LookupFilter(l, Unexpired(now), k);
    }
  }

  /** A Set of another key, from a state that holds `k`. */
  lemma HeldSet(max: nat, front: seq<Op>, op: Op, k: Key)
    requires max >= 1 && op.Set? && op.key != k && HeldBehind(Run(max, front), k, InFront(max, front, k))
    ensures
      var l, ks := Run(max, front + [op]), InFront(max, front + [op], k);
      if |ks| < max then HeldBehind(l, k, ks) else Lookup(l, k).None?
  {
    InFrontSet(max, front, op, k);
    RunSnoc(max, front, op);
    RunSound(max, front);
    SetOther(Run(max, front), max, Item(op.key, op.value, op.now + op.ttl), k);
  }

  lemma InFrontSet(max: nat, front: seq<Op>, op: Op, k: Key)
    requires op.Set? && op.key != k
    ensures InFront(max, front + [op], k) == InFront(max, front, k) + {op.key}
  {
    assert (front + [op])[..|front + [op]| - 1] == front;
  }

  /** Any other operation that is no touch of `k`, from a state that holds it. */
  lemma HeldRest(max: nat, front: seq<Op>, op: Op, k: Key)
    requires max >= 1 && k in Plain(front) && (!op.Delete? ==> op.now <= Plain(front)[k].expiresAt)
    requires HeldBehind(Run(max, front), k, InFront(max, front, k))
    requires !op.Set? && !Touches(max, front, op, k) && !(op.Delete? && op.key == k)
    ensures HeldBehind(Apply(Run(max, front), max, op), k, InFront(max, front + [op], k))
  {
    var l := Run(max, front);
    assert (front + [op])[..|front + [op]| - 1] == front;
    RunSound(max, front);
    RunAgrees(max, front);
    LookupSome(l, k);
    match op {
      case Get(k', now) => if k' != k { GetOther(l, k', now, k); }
      case Delete(k') => RemoveAhead(l, k', k);
      case Cleanup(now) => CleanupOther(l, now, k, Plain(front));
    }
  }

  lemma HeldStep(max: nat, front: seq<Op>, op: Op, k: Key)
    requires max >= 1 && k in Plain(front) && (!op.Delete? ==> op.now <= Plain(front)[k].expiresAt)
    requires HeldBehind(Run(max, front), k, InFront(max, front, k))
    requires !Touches(max, front, op, k) && !(op.Delete? && op.key == k)
    ensures
      var l, ks := Run(max, front + [op]), InFront(max, front + [op], k);
      if |ks| < max then HeldBehind(l, k, ks) else Lookup(l, k).None?
  {
    if op.Set? {
      HeldSet(max, front, op, k);
    } else {
      HeldRest(max, front, op, k);
      RunSnoc(max, front, op);
      RunSound(max, front + [op]);
      KeptSize(Run(max, front + [op]), max, k);
    }
  }

  /** A touch puts `k` in front. */
  lemma TouchStep(max: nat, front: seq<Op>, op: Op, k: Key)
    requires max >= 1 && Touches(max, front, op, k)
    ensures HeldBehind(Run(max, front + [op]), k, {}) && InFront(max, front + [op], k) == {}
  {
    assert (front + [op])[..|front + [op]| - 1] == front;
    RunSnoc(max, front, op);
    RunSound(max, front);
    if op.Set? {
      SetIsFrontThenEvict(Run(max, front), max, Item(k, op.value, op.now + op.ttl));
    } else {
      LookupSome(Run(max, front), k);
    }
  }

  lemma {:induction false} HeldIsNotCrowded(max: nat, ops: seq<Op>, k: Key, now: int)
    requires max >= 1 && ClockUpTo(ops, now) && k in Plain(ops) && now <= Plain(ops)[k].expiresAt
    ensures NeverCrowded(max, ops, k) <==> Lookup(Run(max, ops), k).Some?
    ensures NeverCrowded(max, ops, k) ==> HeldBehind(Run(max, ops), k, InFront(max, ops, k))
    decreases |ops|
  {
    var n := |ops| - 1;
    var front, op := ops[..n], ops[n];
    assert ops == front + [op];
    if Touches(max, front, op, k) {
      TouchStep(max, front, op, k);
    } else {
      assert Plain(front)[k] == Plain(ops)[k];
      HeldIsNotCrowded(max, front, k, now);
      RunSound(max, front);
      RunSnoc(max, front, op);
      if NeverCrowded(max, front, k) {
        HeldStep(max, front, op, k);
      } else {
        AbsentStays(Run(max, front), max, op, k);
      }
    }
  }

  /** Get hits, if and only if the key's last Set is neither deleted nor expired and, since it was last set or hit,
      there were always fewer than maxSize keys held in front of it. */
  lemma HitExactly(max: nat, ops: seq<Op>, k: Key, now: int)
    requires max >= 1 && ClockUpTo(ops, now)
    ensures Hit(Run(max, ops), k, now).Some?
       <==> k in Plain(ops) && now <= Plain(ops)[k].expiresAt && NeverCrowded(max, ops, k)
  {
    if Hit(Run(max, ops), k, now).Some? { HitIsLastSet(max, ops, k, now); }
    if k in Plain(ops) && now <= Plain(ops)[k].expiresAt {
      HeldIsNotCrowded(max, ops, k, now);
      RunAgrees(max, ops);
      if Lookup(Run(max, ops), k).Some? { LookupSome(Run(max, ops), k); }
    }
  }
}
