/** The bounded insertion-ordered cache, and the insertion-ordered map it is built on. */
module Lru {
  import opened Optional

  /** The sequence without one element. */
  function Without<K(==)>(order: seq<K>, key: K): seq<K> {
    if order == [] then []
    else (if order[0] == key then [] else [order[0]]) + Without(order[1..], key)
  }

  ghost predicate Distinct<K>(order: seq<K>) {
    forall i, j :: 0 <= i < j < |order| ==> order[i] != order[j]
  }

  lemma {:induction false} WithoutFacts<K>(order: seq<K>, key: K)
    requires Distinct(order)
    ensures Distinct(Without(order, key))
    ensures forall k :: k in Without(order, key) <==> k in order && k != key
    ensures |Without(order, key)| == |order| - (if key in order then 1 else 0)
  {
    if order != [] {
      var rest := order[1..];
      WithoutFacts(rest, key);
      var r := Without(rest, key);
      assert forall k :: k in order <==> k == order[0] || k in rest;
      assert order[0] !in rest;
      if order[0] == key {
        assert Without(order, key) == r;
      } else {
        assert Without(order, key) == [order[0]] + r;
        assert order[0] !in r;
      }
    }
  }

  /** A map that remembers the order in which its keys were set. */
  datatype Ordered<K(==, !new), V> = Ordered(values: map<K, V>, order: seq<K>) {

    ghost predicate Valid() {
      Distinct(order) && forall k :: k in values <==> k in order
    }

    function Set(key: K, value: V): Ordered<K, V> {
      Ordered(values[key := value], if key in values then order else order + [key])
    }

    function Delete(key: K): Ordered<K, V> {
      Ordered(values - {key}, Without(order, key))
    }

    function DropOldest(): Ordered<K, V> {
      if order == [] then this else Delete(order[0])
    }
  }

  lemma SetValid<K(!new), V>(m: Ordered<K, V>, key: K, value: V)
    requires m.Valid()
    ensures m.Set(key, value).Valid()
    ensures |m.Set(key, value).order| == |m.order| + (if key in m.values then 0 else 1)
  {
    var t := m.Set(key, value);
    assert forall k :: k in t.order <==> k in m.order || k == key;
  }

  lemma DeleteValid<K(!new), V>(m: Ordered<K, V>, key: K)
    requires m.Valid()
    ensures m.Delete(key).Valid()
    ensures |m.Delete(key).order| == |m.order| - (if key in m.values then 1 else 0)
  {
    WithoutFacts(m.order, key);
  }

  lemma SizeIsKeys<K(!new), V>(m: Ordered<K, V>)
    requires m.Valid()
    ensures |m.order| == |m.values.Keys|
  {
    DistinctSize(m.order);
    assert m.values.Keys == set k | k in m.order;
  }

  lemma {:induction false} DistinctSize<K>(order: seq<K>)
    requires Distinct(order)
    ensures |order| == |set k | k in order|
  {
    if order != [] {
      DistinctSize(order[1..]);
      assert (set k | k in order) == (set k | k in order[1..]) + {order[0]};
      assert order[0] !in order[1..];
    }
  }

  /** The cache: an ordered map of at most `capacity` keys; a hit and a set move a key to the end. */
  datatype Cache<K(==, !new), V> = Cache(capacity: nat, entries: Ordered<K, V>) {

    ghost predicate Valid() {
      1 <= capacity && entries.Valid() && |entries.order| <= capacity
    }

    predicate Has(key: K) {
      key in entries.values
    }

    function Get(key: K): Cache<K, V> {
      if Has(key) then this.(entries := entries.Delete(key).Set(key, entries.values[key])) else this
    }

    function Set(key: K, value: V): Cache<K, V> {
      var m := entries.Delete(key).Set(key, value);
      this.(entries := if |m.order| > capacity then m.DropOldest() else m)
    }

    function Delete(key: K): Cache<K, V> {
      this.(entries := entries.Delete(key))
    }
  }

  class LruCache<K(==, !new), V> {
    const capacity: nat
    var entries: Ordered<K, V>

    function View(): Cache<K, V>
      reads this
    {
      Cache(capacity, entries)
    }

    constructor (capacity: nat)
      requires capacity >= 1
      ensures View() == Cache(capacity, Ordered(map[], [])) && View().Valid()
    {
      this.capacity := capacity;
      entries := Ordered(map[], []);
    }

    method Get(key: K) returns (found: Option<V>)
      requires View().Valid()
      modifies this
      ensures View() == old(View()).Get(key) && View().Valid()
      ensures found == if old(View()).Has(key) then Some(old(entries.values)[key]) else None
      ensures entries.values == old(entries.values)
    {
      if key !in entries.values {
        return None;
      }
      GetValid(View(), key);
      var value := entries.values[key];
      entries := entries.Delete(key);
      entries := entries.Set(key, value);
      return Some(value);
    }

    method Set(key: K, value: V)
      requires View().Valid()
      modifies this
      ensures View() == old(View()).Set(key, value) && View().Valid()
    {
      SetKeeps(View(), key, value);
      if key in entries.values {
        entries := entries.Delete(key);
      } else {
        AbsentDelete(entries, key);
      }
      DeleteValid(old(entries), key);
      SetValid(entries, key, value);
      entries := entries.Set(key, value);
      ghost var full := entries;
      while |entries.order| > capacity
        invariant entries == full || (|full.order| > capacity && entries == full.DropOldest() && |entries.order| <= capacity)
        decreases |entries.order|
      {
        DeleteValid(entries, entries.order[0]);
        entries := entries.Delete(entries.order[0]);
      }
    }

    method Delete(key: K) returns (had: bool)
      requires View().Valid()
      modifies this
      ensures View() == old(View()).Delete(key) && View().Valid()
      ensures had == old(View()).Has(key)
    {
      had := key in entries.values;
      DeleteValid(entries, key);
      entries := entries.Delete(key);
    }
  }

  lemma AbsentDelete<K(!new), V>(m: Ordered<K, V>, key: K)
    requires m.Valid() && key !in m.values
    ensures m.Delete(key) == m
  {
    assert key !in m.order;
    WithoutAbsent(m.order, key);
    assert m.values - {key} == m.values;
  }

  lemma {:induction false} WithoutAbsent<K>(order: seq<K>, key: K)
    requires key !in order
    ensures Without(order, key) == order
  {
    if order != [] {
      WithoutAbsent(order[1..], key);
    }
  }

  /** A hit moves the key to the end and changes no value. */
  lemma GetValid<K(!new), V>(c: Cache<K, V>, key: K)
    requires c.Valid()
    ensures c.Get(key).Valid() && c.Get(key).entries.values == c.entries.values
    ensures c.Has(key) ==> c.Get(key).entries.order == Without(c.entries.order, key) + [key]
  {
    if c.Has(key) {
      DeleteValid(c.entries, key);
      SetValid(c.entries.Delete(key), key, c.entries.values[key]);
    }
  }

  /** A set makes the key the newest; the only other key that can leave is the oldest, and only when
      the cache was full of other keys. */
  lemma SetKeeps<K(!new), V>(c: Cache<K, V>, key: K, value: V)
    requires c.Valid()
    ensures var t := c.Set(key, value);
            && t.Valid()
            && t.Has(key) && t.entries.values[key] == value
            && t.entries.order[|t.entries.order| - 1] == key
            && (forall k :: k != key && t.Has(k) ==> c.Has(k) && t.entries.values[k] == c.entries.values[k])
            && (forall k :: k != key && c.Has(k) && !t.Has(k) ==>
                  k == c.entries.order[0] && !c.Has(key) && |c.entries.order| == c.capacity)
  {
    hide Without;
    var d := c.entries.Delete(key);
    var m := d.Set(key, value);
    DeleteValid(c.entries, key);
    WithoutFacts(c.entries.order, key);
    SetValid(d, key, value);
    if |m.order| > c.capacity {
      AbsentDelete(c.entries, key);
      assert m.order == c.entries.order + [key];
      DeleteValid(m, m.order[0]);
      WithoutFirst(m.order);
    }
  }

  lemma WithoutFirst<K>(order: seq<K>)
    requires Distinct(order) && order != []
    ensures Without(order, order[0]) == order[1..]
  {
    WithoutAbsent(order[1..], order[0]);
  }

  lemma FewKeysFit<K(!new), V>(c: Cache<K, V>, key: K, universe: set<K>)
    requires c.Valid() && c.entries.values.Keys <= universe && key in universe && |universe| <= c.capacity
    ensures c.Has(key) || |c.entries.order| < c.capacity
  {
    SizeIsKeys(c.entries);
    var keys := c.entries.values.Keys;
    Fits(keys - {key}, universe - {key});
    assert |universe - {key}| == |universe| - 1;
    assert !c.Has(key) ==> keys - {key} == keys;
  }

  /** While fewer distinct keys than the capacity are in play, nothing is evicted. */
  lemma FewKeysNoEviction<K(!new), V>(c: Cache<K, V>, key: K, value: V, universe: set<K>)
    requires c.Valid() && c.entries.values.Keys <= universe && key in universe && |universe| <= c.capacity
    ensures c.Set(key, value).entries.values == c.entries.values[key := value]
    ensures c.Set(key, value).Valid()
  {
    FewKeysFit(c, key, universe);
    SetKeeps(c, key, value);
    var t := c.Set(key, value).entries.values;
    forall k ensures k in t <==> k in c.entries.values || k == key {
      assert k in t <==> c.Set(key, value).Has(k);
      assert k in c.entries.values <==> c.Has(k);
    }
  }

  lemma {:induction false} Fits<K>(small: set<K>, big: set<K>)
    requires small <= big
    ensures |small| <= |big|
  {
    if small != {} {
      var k :| k in small;
      Fits(small - {k}, big - {k});
    }
  }
}
