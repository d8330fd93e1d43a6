/**
 The recency list of internal/cache/cache.go as a value, front first, and what
 each operation of the cache does to it.  Times are integers (nanoseconds).
 */
module Lru {
  import opened Wrappers

  datatype Key = Key(text: string)

  /** The identity of a stored value. */
  type Value = int

  datatype Item = Item(key: Key, value: Value, expiresAt: int)

  // ------------------------------------------------ lists of items

  function Filter(l: seq<Item>, keep: Item -> bool): seq<Item> {
    if l == [] then []
    else if keep(l[0]) then [l[0]] + Filter(l[1..], keep)
    else Filter(l[1..], keep)
  }

  function Other(k: Key): Item -> bool { (it: Item) => it.key != k }
  function Unexpired(now: int): Item -> bool { (it: Item) => now <= it.expiresAt }
  function Among(ks: set<Key>): Item -> bool { (it: Item) => it.key in ks }

  function Lookup(l: seq<Item>, k: Key): Option<Item> {
    if l == [] then None
    else if l[0].key == k then Some(l[0])
    else Lookup(l[1..], k)
  }

  predicate Unique(l: seq<Item>) {
    forall i, j :: 0 <= i < j < |l| ==> l[i].key != l[j].key
  }

  // ------------------------------------------------ the operations

  datatype Op =
    | Get(key: Key, now: int)
    | Set(key: Key, value: Value, ttl: int, now: int)
    | Delete(key: Key)
    | Cleanup(now: int)

  /** What Get returns. */
  function Hit(l: seq<Item>, k: Key, now: int): Option<Value> {
    match Lookup(l, k)
    case None => None
    case Some(it) => if now > it.expiresAt then None else Some(it.value)
  }

  function AfterGet(l: seq<Item>, k: Key, now: int): seq<Item> {
    match Lookup(l, k)
    case None => l
    case Some(it) => if now > it.expiresAt then Filter(l, Other(k)) else [it] + Filter(l, Other(k))
  }

  /** Evict from the back until at most `max` items are left. */
  function Evict(l: seq<Item>, max: nat): seq<Item> {
    if |l| > max then l[..max] else l
  }

  function AfterSet(l: seq<Item>, max: nat, it: Item): seq<Item> {
    if Lookup(l, it.key).Some? then [it] + Filter(l, Other(it.key)) else Evict([it] + l, max)
  }

  function Apply(l: seq<Item>, max: nat, op: Op): seq<Item> {
    match op
    case Get(k, now) => AfterGet(l, k, now)
    case Set(k, v, ttl, now) => AfterSet(l, max, Item(k, v, now + ttl))
    case Delete(k) => Filter(l, Other(k))
    case Cleanup(now) => Filter(l, Unexpired(now))
  }

  function Run(max: nat, ops: seq<Op>): seq<Item> {
    if ops == [] then [] else Apply(Run(max, ops[..|ops| - 1]), max, ops[|ops| - 1])
  }

  // ------------------------------------------------ facts about filters

  /** Two pairs of filters that keep the same items of `l` give the same list. */
  lemma {:induction false} FilterTwice(l: seq<Item>, p: Item -> bool, q: Item -> bool, r: Item -> bool, s: Item -> bool)
    requires forall i :: 0 <= i < |l| ==> (p(l[i]) && q(l[i])) == (r(l[i]) && s(l[i]))
    ensures Filter(Filter(l, p), q) == Filter(Filter(l, r), s)
    decreases |l|
  {
    if l != [] {
      FilterTwice(l[1..], p, q, r, s);
      var fp, fr := Filter(l[1..], p), Filter(l[1..], r);
      assert ([l[0]] + fp)[1..] == fp;
      assert ([l[0]] + fr)[1..] == fr;
    }
  }

  lemma {:induction false} FilterAll(l: seq<Item>, p: Item -> bool)
    requires forall i :: 0 <= i < |l| ==> p(l[i])
    ensures Filter(l, p) == l
    decreases |l|
  {
    if l != [] {
      FilterAll(l[1..], p);
      assert l == [l[0]] + l[1..];
    }
  }

  lemma {:induction false} FilterSub(l: seq<Item>, p: Item -> bool)
    ensures forall it :: it in Filter(l, p) <==> it in l && p(it)
    ensures |Filter(l, p)| <= |l|
    decreases |l|
  {
    if l != [] {
      FilterSub(l[1..], p);
      assert l == [l[0]] + l[1..];
    }
  }

  lemma {:induction false} FilterUnique(l: seq<Item>, p: Item -> bool)
    requires Unique(l)
    ensures Unique(Filter(l, p))
    decreases |l|
  {
    if l != [] {
      FilterUnique(l[1..], p);
      FilterSub(l[1..], p);
      var f := Filter(l[1..], p);
      forall i | 0 <= i < |f| ensures f[i].key != l[0].key {
        assert f[i] in l[1..];
      }
    }
  }

  lemma {:induction false} LookupFilter(l: seq<Item>, p: Item -> bool, k: Key)
    requires Unique(l)
    ensures Lookup(Filter(l, p), k) ==
      match Lookup(l, k) case None => None case Some(it) => if p(it) then Some(it) else None
    decreases |l|
  {
    if l != [] {
      LookupFilter(l[1..], p, k);
      if p(l[0]) {
        assert ([l[0]] + Filter(l[1..], p))[1..] == Filter(l[1..], p);
      } else if l[0].key == k {
        LookupNone(l[1..], k);
      }
    }
  }

  lemma {:induction false} LookupNone(l: seq<Item>, k: Key)
    ensures Lookup(l, k).None? <==> forall i :: 0 <= i < |l| ==> l[i].key != k
    decreases |l|
  {
    if l != [] { LookupNone(l[1..], k); }
  }

  lemma {:induction false} LookupSome(l: seq<Item>, k: Key)
    requires Lookup(l, k).Some?
    ensures Lookup(l, k).value in l && Lookup(l, k).value.key == k
    decreases |l|
  {
    if l[0].key != k { LookupSome(l[1..], k); }
  }

  /** Removing a present key shortens a list with unique keys by one. */
  lemma {:induction false} RemoveLength(l: seq<Item>, k: Key)
    requires Unique(l)
    ensures |Filter(l, Other(k))| == |l| - (if Lookup(l, k).Some? then 1 else 0)
    decreases |l|
  {
    if l != [] {
      if l[0].key == k {
        FilterAll(l[1..], Other(k));
      } else {
        RemoveLength(l[1..], k);
      }
    }
  }

  /** Dropping the last item of a list with unique keys removes its key. */
  lemma {:induction false} DropLast(l: seq<Item>)
    requires l != [] && Unique(l)
    ensures l[..|l| - 1] == Filter(l, Other(l[|l| - 1].key))
    decreases |l|
  {
    if |l| == 1 {
      assert l[1..] == [] && l[..0] == [];
    } else {
      var rest := l[1..];
      assert rest[|rest| - 1] == l[|l| - 1];
      DropLast(rest);
      assert l[..|l| - 1] == [l[0]] + rest[..|rest| - 1];
    }
  }

  lemma {:induction false} FilterConcat(a: seq<Item>, b: seq<Item>, p: Item -> bool)
    ensures Filter(a + b, p) == Filter(a, p) + Filter(b, p)
    decreases |a|
  {
    if a == [] {
      assert a + b == b;
    } else {
      FilterConcat(a[1..], b, p);
      assert (a + b)[1..] == a[1..] + b;
    }
  }
}
