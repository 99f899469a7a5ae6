/** The ring of recently seen events.

    `Ring` is the simple form: the window of the last `capacity` recorded keys and the set of
    those still remembered. The class keeps the window inside a longer array behind a moving
    head and splices it now and then; its methods are proved to answer like the ring. */
module Dedup {

  type Key = string

  datatype Ring = Ring(capacity: nat, window: seq<Key>, remembered: set<Key>) {

    /** Record a key; the oldest one leaves when the window is full. */
    function Record(key: Key): Ring {
      var w := window + [key];
      if |w| > capacity then Ring(capacity, w[1..], remembered + {key} - {w[0]})
      else Ring(capacity, w, remembered + {key})
    }

    function Seen(key: Key): (Ring, bool) {
      if key in remembered then (this, true) else (Record(key), false)
    }

    function Forget(key: Key): Ring {
      this.(remembered := remembered - {key})
    }

    /** Every key of the window is remembered and occurs once. */
    ghost predicate Exact() {
      && 1 <= capacity && |window| <= capacity
      && remembered == (set k | k in window)
      && forall i, j :: 0 <= i < j < |window| ==> window[i] != window[j]
    }
  }

  class EventDeduper {
    const capacity: nat
    var order: seq<Key>
    var remembered: set<Key>
    var head: nat
    ghost var calls: nat
    ghost var work: nat  // elements removed or moved by splices so far
    ghost var evictions: nat

    ghost function View(): Ring
      reads this
      requires head <= |order|
    {
      Ring(capacity, order[head..], remembered)
    }

    ghost predicate Valid()
      reads this
    {
      && 1 <= capacity
      && head <= capacity && head <= |order| <= head + capacity
      && evictions <= calls
      && work + 2 * head <= 2 * evictions
    }

    constructor (wanted: int)
      ensures Valid() && View() == Ring(if wanted > 1 then wanted else 1, [], {}) && calls == 0
    {
      capacity := if wanted > 1 then wanted else 1;
      order, remembered, head := [], {}, 0;
      calls, work, evictions := 0, 0, 0;
    }

    /** Was the key seen before? The array behind the window never exceeds twice the capacity, and
        all splices together touch at most two elements per call. */
    method Seen(key: Key) returns (seen: bool)
      requires Valid()
      modifies this
      ensures Valid() && |order| <= 2 * capacity
      ensures (View(), seen) == old(View()).Seen(key)
      ensures calls == old(calls) + 1 && work <= 2 * calls
    {
      calls := calls + 1;
      if key in remembered {
        return true;
      }
      remembered := remembered + {key};
      order := order + [key];
      assert order[head..] == old(order[head..]) + [key];
      if |order| - head > capacity {
        remembered := remembered - {order[head]};
        head := head + 1;
        evictions := evictions + 1;
        if head > capacity {
          work := work + |order|;
          order := order[head..];
          head := 0;
        }
      }
      return false;
    }

    method Forget(key: Key)
      requires Valid()
      modifies `remembered
      ensures Valid() && View() == old(View()).Forget(key)
    {
      remembered := remembered - {key};
    }
  }

  // ------------------------------------------------------------------ against the history

  /** The keys newly recorded by a series of calls, and the ring they leave. */
  ghost function Log(r: Ring, keys: seq<Key>): (Ring, seq<Key>)
    decreases |keys|
  {
    if keys == [] then (r, [])
    else
      var (r', seen) := r.Seen(keys[0]);
      var (last, log) := Log(r', keys[1..]);
      (last, (if seen then [] else [keys[0]]) + log)
  }

  ghost function Last(s: seq<Key>, n: nat): seq<Key> {
    if |s| <= n then s else s[|s| - n..]
  }

  lemma RecordExact(r: Ring, key: Key)
    requires r.Exact() && key !in r.remembered
    ensures r.Record(key).Exact()
  {
    var w := r.window + [key];
    var t := r.Record(key);
    if |w| > r.capacity {
      assert w == [w[0]] + t.window;
      assert forall k :: k in w <==> k == w[0] || k in t.window;
      assert forall i :: 0 <= i < |t.window| ==> t.window[i] == w[i + 1];
    }
    assert forall k :: k in w <==> k in r.window || k == key;
  }

  /** Without `forget` the deduper answers like the set of the last `capacity` newly recorded keys:
      after any calls, the window is exactly the end of the record and no key occurs in it twice. */
  lemma {:induction false} AnswersLikeLastCapacity(r: Ring, past: seq<Key>, keys: seq<Key>)
    requires r.Exact() && r.window == Last(past, r.capacity)
    ensures var (t, log) := Log(r, keys);
            && t.Exact() && t.capacity == r.capacity
            && t.window == Last(past + log, r.capacity)
            && t.remembered == (set k | k in Last(past + log, r.capacity))
    decreases |keys|
  {
    if keys == [] {
      assert past + [] == past;
    } else {
      var (r', seen) := r.Seen(keys[0]);
      var (t, log) := Log(r, keys);
      if seen {
        AnswersLikeLastCapacity(r', past, keys[1..]);
        assert log == Log(r', keys[1..]).1;
      } else {
        RecordExact(r, keys[0]);
        assert r'.window == Last(past + [keys[0]], r.capacity);
        AnswersLikeLastCapacity(r', past + [keys[0]], keys[1..]);
        assert past + log == past + [keys[0]] + Log(r', keys[1..]).1;
      }
    }
  }

  ghost predicate Spaced(log: seq<Key>, capacity: nat) {
    forall i, j :: 0 <= i < j < |log| && log[i] == log[j] ==> j - i > capacity
  }

  /** Two records of one key are more than `capacity` records apart. */
  lemma {:induction false} RecordsSpaced(r: Ring, past: seq<Key>, keys: seq<Key>)
    requires r.Exact() && r.window == Last(past, r.capacity) && Spaced(past, r.capacity)
    ensures Spaced(past + Log(r, keys).1, r.capacity)
    decreases |keys|
  {
    if keys == [] {
      assert past + [] == past;
    } else {
      var (r', seen) := r.Seen(keys[0]);
      if seen {
        RecordsSpaced(r', past, keys[1..]);
        assert Log(r, keys).1 == Log(r', keys[1..]).1;
      } else {
        SpacedStep(r, past, keys[0]);
        RecordsSpaced(r', past + [keys[0]], keys[1..]);
        assert past + Log(r, keys).1 == past + [keys[0]] + Log(r', keys[1..]).1;
      }
    }
  }

  lemma SpacedStep(r: Ring, past: seq<Key>, key: Key)
    requires r.Exact() && r.window == Last(past, r.capacity) && Spaced(past, r.capacity)
    requires key !in r.remembered
    ensures Spaced(past + [key], r.capacity)
    ensures r.Record(key).Exact() && r.Record(key).window == Last(past + [key], r.capacity)
  {
    RecordExact(r, key);
    var first := |past| - |r.window|;
    forall i | first <= i < |past| ensures past[i] in r.remembered {
      assert past[i] == r.window[i - first];
    }
  }

  // ------------------------------------------------------------------ with forgetting

  datatype Op = See(key: Key) | Drop(key: Key)

  /** What a caller knows: the keys reported new, in order, and those forgotten since they were. */
  datatype History = History(log: seq<Key>, forgotten: set<Key>)

  ghost function LastIndex(log: seq<Key>, key: Key): (j: int)
    ensures -1 <= j < |log|
    ensures j >= 0 ==> log[j] == key
    ensures forall i :: j < i < |log| ==> log[i] != key
  {
    if log == [] then -1
    else if log[|log| - 1] == key then |log| - 1
    else LastIndex(log[..|log| - 1], key)
  }

  /** The promise: a key is known while it is among the last `capacity` records and was not forgotten
      since its last one. */
  ghost predicate Live(h: History, capacity: nat, key: Key) {
    key !in h.forgotten && LastIndex(h.log, key) >= 0 && LastIndex(h.log, key) >= |h.log| - capacity
  }

  /** An earlier copy of the key, at most `capacity` records before the one at `j`, that has left the
      window of a record of length `end`. */
  ghost predicate Gone(log: seq<Key>, capacity: nat, key: Key, j: int, end: int, i: int) {
    0 <= i < j < |log| && log[i] == key && i < end - capacity && j - i <= capacity
  }

  /** The key was recorded again within `capacity` records of an earlier record of its own, and that
      earlier copy has left the window since. */
  ghost predicate Damaged(log: seq<Key>, capacity: nat, key: Key) {
    exists i :: Gone(log, capacity, key, LastIndex(log, key), |log|, i)
  }

  ghost predicate Agrees(r: Ring, h: History) {
    && 1 <= r.capacity && r.window == Last(h.log, r.capacity)
    && forall key :: key in r.remembered <==> Live(h, r.capacity, key) && !Damaged(h.log, r.capacity, key)
  }

  ghost function Noted(h: History, op: Op, seen: bool): History {
    match op
    case See(key) => if seen then h else History(h.log + [key], h.forgotten - {key})
    case Drop(key) => h.(forgotten := h.forgotten + {key})
  }

  ghost function Apply(r: Ring, op: Op): (Ring, bool) {
    match op
    case See(key) => r.Seen(key)
    case Drop(key) => (r.Forget(key), false)
  }

  lemma LastIndexIs(log: seq<Key>, key: Key, j: int)
    requires -1 <= j < |log| && (j >= 0 ==> log[j] == key) && forall i :: j < i < |log| ==> log[i] != key
    ensures LastIndex(log, key) == j
  {
  }

  /** A record moves the last index of its own key only. */
  lemma LastIndexStep(log: seq<Key>, key: Key, other: Key)
    ensures LastIndex(log + [key], other) == if other == key then |log| else LastIndex(log, other)
  {
    assert (log + [key])[..|log|] == log;
  }

  lemma DamageOfNew(log: seq<Key>, capacity: nat, key: Key)
    ensures Damaged(log + [key], capacity, key) <==> 0 <= |log| - capacity < |log| && log[|log| - capacity] == key
  {
    var all, first := log + [key], |log| - capacity;
    LastIndexStep(log, key, key);
    if 0 <= first < |log| && log[first] == key {
      assert Gone(all, capacity, key, |log|, |all|, first);
    }
  }

  lemma DamageOfOther(log: seq<Key>, capacity: nat, key: Key, other: Key)
    requires other != key
    ensures var first := |log| - capacity;
            Damaged(log + [key], capacity, other)
            <==> Damaged(log, capacity, other) || (0 <= first < LastIndex(log, other) && log[first] == other)
  {
    hide LastIndex;
    var all, first, j := log + [key], |log| - capacity, LastIndex(log, other);
    LastIndexStep(log, key, other);
    assert forall i :: 0 <= i < |log| ==> all[i] == log[i];
    if Damaged(log, capacity, other) {
      var i :| Gone(log, capacity, other, j, |log|, i);
      assert Gone(all, capacity, other, j, |all|, i);
    }
    if 0 <= first < j && log[first] == other {
      assert Gone(all, capacity, other, j, |all|, first);
    }
    if Damaged(all, capacity, other) {
      var i :| Gone(all, capacity, other, j, |all|, i);
      assert i == first || Gone(log, capacity, other, j, |log|, i);
    }
  }

  /** The key that a record drops from what is remembered is the one `capacity` records back. */
  lemma RecordDrops(r: Ring, log: seq<Key>, key: Key)
    requires 1 <= r.capacity && r.window == Last(log, r.capacity)
    ensures var first := |log| - r.capacity;
            r.Record(key).remembered == r.remembered + {key} - (if first >= 0 then {log[first]} else {})
  {
    var w := r.window + [key];
    if |log| >= r.capacity {
      assert w[0] == log[|log| - r.capacity];
    }
  }

  lemma RecordAgrees(r: Ring, h: History, key: Key, other: Key)
    requires Agrees(r, h) && key !in r.remembered
    ensures var t, g := r.Record(key), Noted(h, See(key), false);
            other in t.remembered <==> Live(g, r.capacity, other) && !Damaged(g.log, r.capacity, other)
  {
    hide Damaged;
    hide Last;
    hide Ring.Record;
    RecordDrops(r, h.log, key);
    LastIndexStep(h.log, key, other);
    if other == key {
      DamageOfNew(h.log, r.capacity, key);
    } else {
      DamageOfOther(h.log, r.capacity, key, other);
    }
  }

  lemma OpAgrees(r: Ring, h: History, op: Op)
    requires Agrees(r, h)
    ensures Agrees(Apply(r, op).0, Noted(h, op, Apply(r, op).1))
  {
    if op.See? && op.key !in r.remembered {
      var t, g := r.Record(op.key), Noted(h, op, false);
      assert t.window == Last(g.log, r.capacity);
      forall other ensures other in t.remembered <==> Live(g, r.capacity, other) && !Damaged(g.log, r.capacity, other) {
        RecordAgrees(r, h, op.key, other);
      }
    }
  }

  /** Does every call answer as promised? */
  ghost predicate AsPromised(r: Ring, h: History, ops: seq<Op>)
    decreases |ops|
  {
    ops == [] ||
    var (t, seen) := Apply(r, ops[0]);
    && (ops[0].See? ==> (seen <==> Live(h, r.capacity, ops[0].key)))
    && AsPromised(t, Noted(h, ops[0], seen), ops[1..])
  }

  /** Is some key asked for that is live but damaged? A caller can tell from its own calls. */
  ghost predicate AsksForDamaged(r: Ring, h: History, ops: seq<Op>)
    decreases |ops|
  {
    ops != [] &&
    var (t, seen) := Apply(r, ops[0]);
    || (ops[0].See? && Live(h, r.capacity, ops[0].key) && Damaged(h.log, r.capacity, ops[0].key))
    || AsksForDamaged(t, Noted(h, ops[0], seen), ops[1..])
  }

  lemma {:induction false} PromiseExactly(r: Ring, h: History, ops: seq<Op>)
    requires Agrees(r, h)
    ensures AsPromised(r, h, ops) <==> !AsksForDamaged(r, h, ops)
    decreases |ops|
  {
    if ops != [] {
      var (t, seen) := Apply(r, ops[0]);
      OpAgrees(r, h, ops[0]);
      PromiseExactly(t, Noted(h, ops[0], seen), ops[1..]);
    }
  }

  /** Over any calls of `seen` and `forget` on a new deduper: every answer is "among the last `capacity`
      records and not forgotten since", exactly when no call asks for a live key that was recorded again
      within `capacity` records of its own earlier record and whose earlier copy has left since. */
  lemma ForgettingExactly(capacity: nat, ops: seq<Op>)
    requires capacity >= 1
    ensures var r, h := Ring(capacity, [], {}), History([], {});
            AsPromised(r, h, ops) <==> !AsksForDamaged(r, h, ops)
  {
    PromiseExactly(Ring(capacity, [], {}), History([], {}), ops);
  }

  /** Capacity two: after see a, forget a, see a, see b, the key a is taken for new again. */
  lemma ForgetExample()
    ensures var r := Ring(2, [], {}).Seen("a").0.Forget("a").Seen("a").0.Seen("b").0;
            r.window == ["a", "b"] && !r.Seen("a").1
  {
    var r0 := Ring(2, [], {}).Seen("a").0;
    assert [] + ["a"] == ["a"];
    var r1 := r0.Forget("a").Seen("a").0;
    assert ["a"] + ["a"] == ["a", "a"];
    assert "a" in r1.remembered && "b" !in r1.remembered by { assert "a"[0] != "b"[0]; }
    var w := r1.window + ["b"];
    assert w[1..] == ["a", "b"];
  }

  lemma AsksLater(r: Ring, h: History, op: Op, rest: seq<Op>)
    requires AsksForDamaged(Apply(r, op).0, Noted(h, op, Apply(r, op).1), rest)
    ensures AsksForDamaged(r, h, [op] + rest)
  {
    assert ([op] + rest)[1..] == rest;
  }

  lemma FourCalls(a: Key, b: Key)
    requires a != b
    ensures Apply(Ring(2, [], {}), See(a)) == (Ring(2, [a], {a}), false)
    ensures Apply(Ring(2, [a], {a}), Drop(a)) == (Ring(2, [a], {}), false)
    ensures Apply(Ring(2, [a], {}), See(a)) == (Ring(2, [a, a], {a}), false)
    ensures Apply(Ring(2, [a, a], {a}), See(b)) == (Ring(2, [a, b], {b}), false)
  {
    var none: seq<Key>, nobody: set<Key> := [], {};
    assert none + [a] == [a] && nobody + {a} == {a};
    assert [] + [a] == [a] && [a] + [a] == [a, a] && [a, a] + [b] == [a, a, b] && [a, a, b][1..] == [a, b];
  }

  lemma FourNotes(a: Key, b: Key)
    requires a != b
    ensures Noted(History([], {}), See(a), false) == History([a], {})
    ensures Noted(History([a], {}), Drop(a), false) == History([a], {a})
    ensures Noted(History([a], {a}), See(a), false) == History([a, a], {})
    ensures Noted(History([a, a], {}), See(b), false) == History([a, a, b], {})
  {
    assert [] + [a] == [a] && [a] + [a] == [a, a] && [a, a] + [b] == [a, a, b];
  }

  /** The same calls for any two keys, and a last one that asks for the first: it is answered as new,
      against the promise. */
  lemma ForgetBreaksPromise(a: Key, b: Key)
    requires a != b
    ensures var ops := [See(a)] + ([Drop(a)] + ([See(a)] + ([See(b)] + [See(a)])));
            !AsPromised(Ring(2, [], {}), History([], {}), ops)
  {
    var last := [See(a)];
    var r4, h4 := Ring(2, [a, b], {b}), History([a, a, b], {});
    LastIndexIs(h4.log, a, 1);
    assert Gone(h4.log, 2, a, 1, 3, 0);
    assert AsksForDamaged(r4, h4, last);
    hide AsksForDamaged;
    hide Apply;
    hide Noted;
    FourCalls(a, b);
    FourNotes(a, b);
    AsksLater(Ring(2, [a, a], {a}), History([a, a], {}), See(b), last);
    AsksLater(Ring(2, [a], {}), History([a], {a}), See(a), [See(b)] + last);
    AsksLater(Ring(2, [a], {a}), History([a], {}), Drop(a), [See(a)] + ([See(b)] + last));
    AsksLater(Ring(2, [], {}), History([], {}), See(a), [Drop(a)] + ([See(a)] + ([See(b)] + last)));
    ForgettingExactly(2, [See(a)] + ([Drop(a)] + ([See(a)] + ([See(b)] + last))));
  }
}
