/** The in-memory stores whose entries expire: the used-token store and the string map share one shape.

    Every operation is given the reading of the clock it makes. `Guards` is what the registries built
    on the store need: until a time comes, the store still holds a key. */
module TokenStore {
  import opened Optional
  import opened Lru

  datatype Timed<V> = Timed(value: V, until: int)

  predicate Expired<K(!new), V>(m: Ordered<K, Timed<V>>, key: K, now: int) {
    key in m.values && m.values[key].until <= now
  }

  /** Expired keys leave, looked at one after the other. */
  function Pruned<K(!new), V>(m: Ordered<K, Timed<V>>, keys: seq<K>, now: int): Ordered<K, Timed<V>>
    decreases |keys|
  {
    if keys == [] then m
    else Pruned(if Expired(m, keys[0], now) then m.Delete(keys[0]) else m, keys[1..], now)
  }

  /** The oldest keys leave until there is room for one more. */
  function Trimmed<K(!new), V>(m: Ordered<K, Timed<V>>, capacity: int): Ordered<K, Timed<V>>
    decreases |m.order|
  {
    if m.order == [] || |m.order| < capacity then m
    else
      WithoutShrinks(m.order);
      Trimmed(m.DropOldest(), capacity)
  }

  datatype Store<K(==, !new), V> = Store(capacity: int, seen: Ordered<K, Timed<V>>) {

    ghost predicate Valid() {
      seen.Valid()
    }

    function Get(key: K, now: int): Option<V> {
      if key in seen.values && now < seen.values[key].until then Some(seen.values[key].value) else None
    }

    /** A look-up drops the key it finds expired. */
    function Got(key: K, now: int): Store<K, V> {
      if Expired(seen, key, now) then this.(seen := seen.Delete(key)) else this
    }

    function Set(key: K, value: V, ttlMs: int, now: int): Store<K, V> {
      this.(seen := Trimmed(Pruned(seen, seen.order, now), capacity).Set(key, Timed(value, now + ttlMs)))
    }

    function Delete(key: K): Store<K, V> {
      this.(seen := seen.Delete(key))
    }

    /** Is there room for one more key once the expired ones are gone? */
    predicate Roomy(now: int) {
      |Pruned(seen, seen.order, now).order| < capacity
    }

    /** Until `time` comes, the key is held, and held until then. */
    predicate Guards(key: K, time: int, now: int) {
      time <= now || (key in seen.values && time <= seen.values[key].until)
    }
  }

  class TtlMap<K(==, !new), V> {
    const capacity: int
    var seen: Ordered<K, Timed<V>>

    ghost function View(): Store<K, V>
      reads this
    {
      Store(capacity, seen)
    }

    constructor (capacity: int)
      ensures View() == Store(capacity, Ordered(map[], [])) && View().Valid()
    {
      this.capacity, seen := capacity, Ordered(map[], []);
    }

    method Get(key: K, now: int) returns (value: Option<V>)
      requires View().Valid()
      modifies this
      ensures value == old(View()).Get(key, now)
      ensures View() == old(View()).Got(key, now) && View().Valid()
    {
      if key !in seen.values {
        return None;
      }
      if seen.values[key].until <= now {
        DeleteValid(seen, key);
        seen := seen.Delete(key);
        return None;
      }
      return Some(seen.values[key].value);
    }

    method Set(key: K, value: V, ttlMs: int, now: int)
      requires View().Valid()
      modifies this
      ensures View() == old(View()).Set(key, value, ttlMs, now) && View().Valid()
    {
      Prune(now);
      ghost var pruned := seen;
      while seen.order != [] && |seen.order| >= capacity
        invariant seen.Valid() && Trimmed(seen, capacity) == Trimmed(pruned, capacity)
        decreases |seen.order|
      {
        WithoutShrinks(seen.order);
        DeleteValid(seen, seen.order[0]);
        seen := seen.Delete(seen.order[0]);
      }
      SetValid(seen, key, Timed(value, now + ttlMs));
      seen := seen.Set(key, Timed(value, now + ttlMs));
    }

    method Prune(now: int)
      requires View().Valid()
      modifies this
      ensures seen == old(Pruned(seen, seen.order, now)) && View().Valid()
    {
      var keys := seen.order;
      ghost var was := seen;
      for i := 0 to |keys|
        invariant seen.Valid() && Pruned(seen, keys[i..], now) == Pruned(was, keys, now)
      {
        assert keys[i..][1..] == keys[i + 1..];
        if keys[i] in seen.values && seen.values[keys[i]].until <= now {
          DeleteValid(seen, keys[i]);
          seen := seen.Delete(keys[i]);
        }
      }
    }

    /** Add the key unless it is there; the two steps read the clock on their own. */
    method TryAdd(key: K, value: V, ttlMs: int, checkAt: int, addAt: int) returns (added: bool)
      requires View().Valid()
      modifies this
      ensures added == (old(View()).Get(key, checkAt) == None) && View().Valid()
      ensures var checked := old(View()).Got(key, checkAt);
              View() == if added then checked.Set(key, value, ttlMs, addAt) else checked
    {
      var present := Get(key, checkAt);
      if present.Some? {
        return false;
      }
      Set(key, value, ttlMs, addAt);
      return true;
    }

    method Delete(key: K)
      requires View().Valid()
      modifies this
      ensures View() == old(View()).Delete(key) && View().Valid()
    {
      DeleteValid(seen, key);
      seen := seen.Delete(key);
    }
  }

  lemma WithoutShrinks<K>(order: seq<K>)
    requires order != []
    ensures |Without(order, order[0])| < |order|
  {
    WithoutShorter(order[1..], order[0]);
  }

  lemma {:induction false} WithoutShorter<K>(order: seq<K>, key: K)
    ensures |Without(order, key)| <= |order|
  {
    if order != [] {
      WithoutShorter(order[1..], key);
    }
  }

  /** Pruning takes away exactly the expired keys among those looked at. */
  lemma {:induction false} PrunedValues<K(!new), V>(m: Ordered<K, Timed<V>>, keys: seq<K>, now: int)
    requires m.Valid()
    ensures var p := Pruned(m, keys, now);
            && p.Valid()
            && (forall k :: k in p.values <==> k in m.values && !(k in keys && m.values[k].until <= now))
            && (forall k :: k in p.values ==> p.values[k] == m.values[k])
    decreases |keys|
  {
    if keys != [] {
      DeleteValid(m, keys[0]);
      PrunedValues(if Expired(m, keys[0], now) then m.Delete(keys[0]) else m, keys[1..], now);
    }
  }

  /** With room, setting a key drops only what has expired. */
  lemma SetWithRoom<K(!new), V>(s: Store<K, V>, key: K, value: V, ttlMs: int, now: int)
    requires s.Valid() && s.Roomy(now)
    ensures var t := s.Set(key, value, ttlMs, now);
            && t.Valid()
            && key in t.seen.values && t.seen.values[key] == Timed(value, now + ttlMs)
            && (forall k :: k != key ==>
                  (k in t.seen.values <==> k in s.seen.values && now < s.seen.values[k].until)
                  && (k in t.seen.values ==> t.seen.values[k] == s.seen.values[k]))
  {
    PrunedValues(s.seen, s.seen.order, now);
    SetValid(Pruned(s.seen, s.seen.order, now), key, Timed(value, now + ttlMs));
  }

  lemma {:induction false} TrimmedSubset<K(!new), V>(m: Ordered<K, Timed<V>>, capacity: int)
    requires m.Valid()
    ensures var u := Trimmed(m, capacity);
            u.Valid() && forall k :: k in u.values ==> k in m.values && u.values[k] == m.values[k]
    decreases |m.order|
  {
    if m.order != [] && |m.order| >= capacity {
      WithoutShrinks(m.order);
      DeleteValid(m, m.order[0]);
      TrimmedSubset(m.DropOldest(), capacity);
    }
  }

  /** With or without room, setting a key brings in nothing but that key. */
  lemma SetAddsOnly<K(!new), V>(s: Store<K, V>, key: K, value: V, ttlMs: int, now: int)
    requires s.Valid()
    ensures var t := s.Set(key, value, ttlMs, now);
            && t.Valid()
            && key in t.seen.values && t.seen.values[key] == Timed(value, now + ttlMs)
            && forall k :: k != key && k in t.seen.values ==> k in s.seen.values && t.seen.values[k] == s.seen.values[k]
  {
    PrunedValues(s.seen, s.seen.order, now);
    var pruned := Pruned(s.seen, s.seen.order, now);
    TrimmedSubset(pruned, s.capacity);
    SetValid(Trimmed(pruned, s.capacity), key, Timed(value, now + ttlMs));
  }

  lemma GotValid<K(!new), V>(s: Store<K, V>, key: K, now: int)
    requires s.Valid()
    ensures s.Got(key, now).Valid()
  {
    DeleteValid(s.seen, key);
  }

  /** A look-up never lifts a guard. */
  lemma GotGuards<K(!new), V>(s: Store<K, V>, key: K, now: int, guarded: K, time: int, before: int)
    requires s.Valid() && before <= now && s.Guards(guarded, time, before)
    ensures s.Got(key, now).Guards(guarded, time, now)
  {
  }

  /** With room, setting a key lifts a guard exactly when it is the guarded key and set to end too soon. */
  lemma SetGuards<K(!new), V>(s: Store<K, V>, key: K, value: V, ttlMs: int, now: int, guarded: K, time: int, before: int)
    requires s.Valid() && s.Roomy(now) && before <= now && s.Guards(guarded, time, before)
    ensures s.Set(key, value, ttlMs, now).Guards(guarded, time, now) <==> key != guarded || time <= now + ttlMs || time <= now
  {
    SetWithRoom(s, key, value, ttlMs, now);
  }

  /** A look-up takes away the key it finds expired and nothing else. */
  lemma GotExactly<K(!new), V>(s: Store<K, V>, key: K, now: int)
    requires s.Valid()
    ensures var t := s.Got(key, now);
            && (forall k :: k in t.seen.values <==> k in s.seen.values && !(k == key && s.seen.values[k].until <= now))
            && (forall k :: k in t.seen.values ==> t.seen.values[k] == s.seen.values[k])
            && t.seen.order == if key in s.seen.values && s.seen.values[key].until <= now then Without(s.seen.order, key)
                               else s.seen.order
  {
  }

  /** A deleted key is gone, and the others are as they were. */
  lemma DeletedExactly<K(!new), V>(s: Store<K, V>, key: K, other: K, now: int)
    ensures s.Delete(key).Get(key, now) == None
    ensures other != key ==> s.Delete(key).Get(other, now) == s.Get(other, now)
  {
  }

  lemma {:induction false} WithoutFirst<K>(order: seq<K>)
    requires order != [] && Distinct(order)
    ensures Without(order, order[0]) == order[1..]
  {
    WithoutNone(order[1..], order[0]);
  }

  lemma {:induction false} WithoutNone<K>(order: seq<K>, key: K)
    requires key !in order
    ensures Without(order, key) == order
  {
    if order != [] {
      WithoutNone(order[1..], key);
    }
  }

  /** How many keys leave a store of this size to make room for one. */
  function Surplus(size: nat, capacity: int): (n: nat)
    ensures n <= size
  {
    if size < capacity then 0 else if capacity <= 0 then size else size - capacity + 1
  }

  lemma {:induction false} TrimmedIs<K(!new), V>(m: Ordered<K, Timed<V>>, capacity: int)
    requires m.Valid()
    ensures Trimmed(m, capacity).order == m.order[Surplus(|m.order|, capacity)..]
    decreases |m.order|
  {
    if m.order != [] && |m.order| >= capacity {
      WithoutShrinks(m.order);
      WithoutFirst(m.order);
      DeleteValid(m, m.order[0]);
      TrimmedIs(m.DropOldest(), capacity);
    }
  }

  /** Setting a key with the store full of live keys: just as many of the oldest leave as make room, and the
      others stay in their order. */
  lemma SetEvictsOldest<K(!new), V>(s: Store<K, V>, key: K, value: V, ttlMs: int, now: int)
    requires s.Valid()
    ensures var live := Pruned(s.seen, s.seen.order, now).order;
            var rest := live[Surplus(|live|, s.capacity)..];
            s.Set(key, value, ttlMs, now).seen.order == if key in rest then rest else rest + [key]
  {
    var pruned := Pruned(s.seen, s.seen.order, now);
    PrunedValues(s.seen, s.seen.order, now);
    TrimmedIs(pruned, s.capacity);
    TrimmedSubset(pruned, s.capacity);
  }
}
