/** The cache of internal/cache/cache.go: a map and a recency list of entries, both updated in place. */
module CacheCode {
  import opened Wrappers
  import opened Lru

  /** An entry together with its list element. */
  class Entry {
    const key: Key
    var value: Value
    var expiresAt: int

    constructor (key: Key, value: Value, expiresAt: int)
      ensures this.key == key && this.value == value && this.expiresAt == expiresAt
    {
      this.key, this.value, this.expiresAt := key, value, expiresAt;
    }
  }

  ghost function Read(e: Entry): Item
    reads e
  {
    Item(e.key, e.value, e.expiresAt)
  }

  ghost function ReadAll(es: seq<Entry>): (l: seq<Item>)
    reads es
    ensures |l| == |es| && forall i :: 0 <= i < |es| ==> l[i] == Read(es[i])
  {
    if es == [] then [] else [Read(es[0])] + ReadAll(es[1..])
  }

  /** container/list: Remove */
  function Unlink(es: seq<Entry>, e: Entry): (r: seq<Entry>)
    ensures forall i :: 0 <= i < |r| ==> r[i] in es && r[i] != e
    ensures |r| <= |es|
  {
    if es == [] then []
    else if es[0] == e then Unlink(es[1..], e)
    else [es[0]] + Unlink(es[1..], e)
  }

  function KeysOf(es: seq<Entry>): set<Key> {
    if es == [] then {} else {es[0].key} + KeysOf(es[1..])
  }

  lemma {:induction false} KeyAt(es: seq<Entry>, k: Key) returns (i: nat)
    requires k in KeysOf(es)
    ensures i < |es| && es[i].key == k
    decreases |es|
  {
    if es[0].key == k {
      i := 0;
    } else {
      i := KeyAt(es[1..], k);
      i := i + 1;
    }
  }

  lemma {:induction false} KeyOf(es: seq<Entry>, i: nat)
    requires i < |es|
    ensures es[i].key in KeysOf(es)
    decreases |es|
  {
    if i > 0 { KeyOf(es[1..], i - 1); }
  }

  lemma {:induction false} UnlinkKeys(es: seq<Entry>, e: Entry)
    requires DistinctKeys(es) && e in es
    ensures KeysOf(Unlink(es, e)) == KeysOf(es) - {e.key}
    decreases |es|
  {
    if es[0] == e {
      UnlinkAbsent(es[1..], e);
      if e.key in KeysOf(es[1..]) {
        var i := KeyAt(es[1..], e.key);
      }
    } else {
      UnlinkKeys(es[1..], e);
      assert ([es[0]] + Unlink(es[1..], e))[1..] == Unlink(es[1..], e);
      assert es[0].key != e.key;
    }
  }

  predicate DistinctKeys(es: seq<Entry>) {
    forall i, j :: 0 <= i < j < |es| ==> es[i].key != es[j].key
  }

  lemma {:induction false} UnlinkReads(es: seq<Entry>, e: Entry)
    requires DistinctKeys(es) && e in es
    ensures ReadAll(Unlink(es, e)) == Filter(ReadAll(es), Other(e.key))
    decreases |es|
  {
    var rest := es[1..];
    assert ReadAll(es)[1..] == ReadAll(rest);
    if es[0] == e {
      UnlinkAbsent(rest, e);
      FilterAll(ReadAll(rest), Other(e.key));
    } else {
      UnlinkReads(rest, e);
      assert ([es[0]] + Unlink(rest, e))[1..] == Unlink(rest, e);
    }
  }

  lemma {:induction false} UnlinkDistinct(es: seq<Entry>, e: Entry)
    requires DistinctKeys(es)
    ensures DistinctKeys(Unlink(es, e))
    decreases |es|
  {
    if es != [] {
      var rest := Unlink(es[1..], e);
      UnlinkDistinct(es[1..], e);
      forall i | 0 <= i < |rest| ensures rest[i].key != es[0].key {
        assert rest[i] in es[1..];
      }
    }
  }

  lemma KeysApart(es: seq<Entry>, e: Entry, x: Entry)
    requires DistinctKeys(es) && e in es && x in es && x != e
    ensures x.key != e.key
  {
    var i :| 0 <= i < |es| && es[i] == e;
    var j :| 0 <= j < |es| && es[j] == x;
  }

  lemma ConsDistinct(e: Entry, rest: seq<Entry>)
    requires DistinctKeys(rest) && forall i :: 0 <= i < |rest| ==> rest[i].key != e.key
    ensures DistinctKeys([e] + rest)
  {
    var es := [e] + rest;
    forall i, j | 0 <= i < j < |es| ensures es[i].key != es[j].key {
      assert es[j] == rest[j - 1] && (i > 0 ==> es[i] == rest[i - 1]);
    }
  }

  /** The list with `e` moved to the front has the same entries. */
  lemma FrontDistinct(es: seq<Entry>, e: Entry)
    requires DistinctKeys(es) && e in es
    ensures DistinctKeys([e] + Unlink(es, e))
  {
    var rest := Unlink(es, e);
    UnlinkDistinct(es, e);
    forall i | 0 <= i < |rest| ensures rest[i].key != e.key {
      KeysApart(es, e, rest[i]);
    }
    ConsDistinct(e, rest);
  }

  lemma {:induction false} UnlinkAbsent(es: seq<Entry>, e: Entry)
    requires e !in es
    ensures Unlink(es, e) == es
    decreases |es|
  {
    if es != [] {
      UnlinkAbsent(es[1..], e);
      assert es == [es[0]] + es[1..];
    }
  }

  lemma {:induction false} FindEntry(es: seq<Entry>, e: Entry)
    requires DistinctKeys(es) && e in es
    ensures Lookup(ReadAll(es), e.key) == Some(Read(e))
    decreases |es|
  {
    assert ReadAll(es)[1..] == ReadAll(es[1..]);
    if es[0] != e { FindEntry(es[1..], e); }
  }

  class Cache {
    const maxSize: nat
    const defaultTTL: int
    var items: map<Key, Entry>
    var order: seq<Entry>

    /** Map and list are in bijection, and the list is within bounds. */
    ghost predicate Valid()
      reads this
    {
      && maxSize >= 1
      && |order| <= maxSize
      && Linked()
    }

    ghost predicate Linked()
      reads this
    {
      && DistinctKeys(order)
      && (forall i :: 0 <= i < |order| ==> order[i].key in items && items[order[i].key] == order[i])
      && items.Keys == KeysOf(order)
    }

    /** The recency list, front first. */
    ghost function View(): seq<Item>
      reads this, order
    {
      ReadAll(order)
    }

    constructor (maxSize: int, defaultTTL: int)
      ensures Valid() && View() == [] && this.maxSize == if maxSize <= 0 then 1000 else maxSize
      ensures this.defaultTTL == if defaultTTL <= 0 then 30 * 1_000_000_000 else defaultTTL
    {
      this.maxSize := if maxSize <= 0 then 1000 else maxSize;
      this.defaultTTL := if defaultTTL <= 0 then 30 * 1_000_000_000 else defaultTTL;
      items, order := map[], [];
    }

    /** The map finds exactly what the list holds. */
    lemma MapIsList(k: Key)
      requires Linked()
      ensures k in items <==> Lookup(View(), k).Some?
      ensures k in items ==> items[k] in order && items[k].key == k && Lookup(View(), k) == Some(Read(items[k]))
    {
      if k in items {
        var i := KeyAt(order, k);
        FindEntry(order, order[i]);
      } else {
        forall i | 0 <= i < |order| ensures order[i].key != k {
          KeyOf(order, i);
        }
        LookupNone(View(), k);
      }
    }

    method RemoveLocked(e: Entry)
      requires Linked() && e in order
      modifies this`items, this`order
      ensures Linked() && View() == Filter(old(View()), Other(e.key))
      ensures order == Unlink(old(order), e)
    {
      UnlinkReads(order, e);
      UnlinkDistinct(order, e);
      UnlinkKeys(order, e);
      items := items - {e.key};
      order := Unlink(order, e);
    }

    method MoveToFront(e: Entry)
      requires Linked() && e in order
      modifies this`order
      ensures Linked() && View() == [Read(e)] + Filter(old(View()), Other(e.key))
      ensures order == [e] + Unlink(old(order), e)
    {
      UnlinkReads(order, e);
      FrontDistinct(order, e);
      UnlinkKeys(order, e);
      order := [e] + Unlink(order, e);
      assert order[1..] == Unlink(old(order), e);
    }

    lemma {:induction false} RemoveEntryLength(es: seq<Entry>, e: Entry)
      requires DistinctKeys(es) && e in es
      ensures |Unlink(es, e)| == |es| - 1
      decreases |es|
    {
      if es[0] == e {
        UnlinkAbsent(es[1..], e);
      } else {
        RemoveEntryLength(es[1..], e);
      }
    }

    method Get(key: Key, now: int) returns (r: Option<Value>)
      requires Valid()
      modifies this`items, this`order
      ensures Valid()
      ensures View() == AfterGet(old(View()), key, now)
      ensures r == Hit(old(View()), key, now)
    {
      MapIsList(key);
      if key !in items {
        return None;
      }
      var e := items[key];
      RemoveEntryLength(order, e);
      if now > e.expiresAt {
        RemoveLocked(e);
        return None;
      }
      MoveToFront(e);
      r := Some(e.value);
    }

    lemma ReadFront(e: Entry, rest: seq<Entry>)
      ensures ReadAll([e] + rest) == [Read(e)] + ReadAll(rest)
    {
      assert ([e] + rest)[1..] == rest;
    }

    /** Writing one entry leaves the others as they are. */
    method Store(e: Entry, value: Value, expiresAt: int, ghost rest: seq<Entry>)
      requires e !in rest
      modifies e
      ensures Read(e) == Item(e.key, value, expiresAt)
      ensures ReadAll(rest) == old(ReadAll(rest))
    {
      e.value := value;
      e.expiresAt := expiresAt;
    }

    /** A present key: the element moves to the front and its entry is overwritten. */
    method Overwrite(e: Entry, value: Value, expiresAt: int)
      requires Valid() && e in order
      modifies this`order, e
      ensures Valid() && items == old(items)
      ensures View() == [Item(e.key, value, expiresAt)] + Filter(old(View()), Other(e.key))
    {
      RemoveEntryLength(order, e);
      UnlinkReads(order, e);
      ghost var rest := Unlink(order, e);
      MoveToFront(e);
      Store(e, value, expiresAt, rest);
      ReadFront(e, rest);
    }

    /** A new key: pushed to the front of the list and entered in the map. */
    method PushFront(e: Entry)
      requires Linked() && e.key !in items
      modifies this`items, this`order
      ensures Linked() && order == [e] + old(order)
      ensures View() == [Read(e)] + old(View())
    {
      order := [e] + order;
      items := items[e.key := e];
      assert order[1..] == old(order);
    }

    method RemoveBack()
      requires Linked() && order != []
      modifies this`items, this`order
      ensures Linked() && order == old(order)[..|old(order)| - 1]
      ensures View() == old(View())[..|old(View())| - 1]
    {
      DropLast(View());
      UnlinkLast(order);
      RemoveLocked(order[|order| - 1]);
    }

    lemma {:induction false} UnlinkLast(es: seq<Entry>)
      requires es != [] && DistinctKeys(es)
      ensures Unlink(es, es[|es| - 1]) == es[..|es| - 1]
      decreases |es|
    {
      if |es| == 1 {
        assert es[1..] == [];
      } else {
        UnlinkLast(es[1..]);
        assert es[..|es| - 1] == [es[0]] + es[1..][..|es| - 2];
      }
    }

    method EvictOverflow()
      requires Linked()
      modifies this`items, this`order
      ensures Linked() && |order| <= maxSize
      ensures View() == Evict(old(View()), maxSize)
    {
      while |order| > maxSize
        invariant Linked() && |order| <= |old(order)| && order == old(order)[..|order|]
        invariant |old(order)| > maxSize ==> |order| >= maxSize
        invariant |old(order)| <= maxSize ==> order == old(order)
        invariant View() == old(View())[..|order|]
      {
        RemoveBack();
      }
    }

    method SetWithTTL(key: Key, value: Value, ttl: int, now: int)
      requires Valid()
      modifies this, order
      ensures Valid()
      ensures View() == AfterSet(old(View()), maxSize, Item(key, value, now + ttl))
    {
      MapIsList(key);
      if key in items {
        Overwrite(items[key], value, now + ttl);
        return;
      }
      Insert(key, value, now + ttl);
    }

    method Insert(key: Key, value: Value, expiresAt: int)
      requires Valid() && key !in items
      modifies this`items, this`order
      ensures Valid() && View() == Evict([Item(key, value, expiresAt)] + old(View()), maxSize)
    {
      var e := new Entry(key, value, expiresAt);
      PushFront(e);
      EvictOverflow();
    }

    method Delete(key: Key)
      requires Valid()
      modifies this`items, this`order
      ensures Valid() && View() == Filter(old(View()), Other(key))
    {
      MapIsList(key);
      if key in items {
        RemoveEntryLength(order, items[key]);
        RemoveLocked(items[key]);
      } else {
        LookupNone(View(), key);
        FilterAll(View(), Other(key));
      }
    }

    /** Removing the entry at index `i` leaves what is before and after it. */
    lemma {:induction false} UnlinkAt(es: seq<Entry>, i: nat)
      requires i < |es| && DistinctKeys(es)
      ensures Unlink(es, es[i]) == es[..i] + es[i + 1..]
      decreases |es|
    {
      if i == 0 {
        UnlinkAbsent(es[1..], es[0]);
      } else {
        assert es[1..][i - 1] == es[i];
        UnlinkAt(es[1..], i - 1);
        assert es[..i] == [es[0]] + es[1..][..i - 1];
        assert es[1..][i..] == es[i + 1..];
      }
    }

    method RemoveAt(i: nat)
      requires Linked() && i < |order|
      modifies this`items, this`order
      ensures Linked() && |order| == |old(order)| - 1
      ensures order[..i] == old(order)[..i] && order[i..] == old(order)[i + 1..]
    {
      UnlinkAt(order, i);
      RemoveLocked(order[i]);
    }

    lemma SweepOne(es: seq<Entry>, i: nat, now: int)
      requires i < |es|
      ensures Filter(ReadAll(es[i..]), Unexpired(now)) ==
        (if now > es[i].expiresAt then [] else [Read(es[i])]) + Filter(ReadAll(es[i + 1..]), Unexpired(now))
    {
      assert es[i..][1..] == es[i + 1..];
      assert ReadAll(es[i..])[1..] == ReadAll(es[i + 1..]);
    }

    /** What the sweep has established once everything from index `i` on has been looked at. */
    ghost predicate SweptFrom(i: nat, now: int, es: seq<Entry>)
      reads this, order, es
    {
      && i <= |order| <= |es| && order[..i] == es[..i]
      && ReadAll(order[i..]) == Filter(ReadAll(es[i..]), Unexpired(now))
    }

    lemma SweepKeeps(i: nat, now: int, es: seq<Entry>)
      requires SweptFrom(i + 1, now, es) && now <= es[i].expiresAt
      ensures SweptFrom(i, now, es)
    {
      SweepOne(es, i, now);
      assert order[i] == es[..i + 1][i] && order[..i] == order[..i + 1][..i];
      assert order[i..] == [order[i]] + order[i + 1..];
      ReadFront(order[i], order[i + 1..]);
    }

    /** The sweep looks at index `i`; everything behind it has been looked at. */
    method SweepAt(i: nat, now: int, ghost es: seq<Entry>)
      requires Linked() && SweptFrom(i + 1, now, es)
      modifies this`items, this`order
      ensures Linked() && SweptFrom(i, now, es)
    {
      assert order[i] == es[..i + 1][i] && order[..i] == order[..i + 1][..i];
      if now > order[i].expiresAt {
        SweepOne(es, i, now);
        RemoveAt(i);
      } else {
        SweepKeeps(i, now, es);
      }
    }

    /** The back-to-front sweep over the list. */
    method Cleanup(now: int)
      requires Valid()
      modifies this`items, this`order
      ensures Valid() && View() == Filter(old(View()), Unexpired(now))
    {
      ghost var es := order;
      var i := |order|;
      while i > 0
        invariant Linked() && 0 <= i && SweptFrom(i, now, es)
      {
        i := i - 1;
        SweepAt(i, now, es);
      }
      assert es[0..] == es && order[0..] == order;
    }

    method Len() returns (n: nat)
      requires Valid()
      ensures n == |View()| && n <= maxSize
    {
      n := |order|;
    }
  }
}
