/** The throttle middleware: a fixed window per key, kept in the bounded cache.

    The segment up to the first `await` is atomic, so one call is one step on the record of its key. */
module Throttle {
  import opened Optional
  import opened Lru

  datatype Record = Record(windowStart: int, count: int, notified: bool)

  datatype Verdict = Pass | Drop | Notify(retryAfterMs: int)

  datatype Limits = Limits(limit: int, windowMs: int) {
    predicate Valid() {
      1 <= limit && 1 <= windowMs
    }
  }

  predicate Opens(l: Limits, record: Option<Record>, now: int) {
    record.None? || now - record.value.windowStart >= l.windowMs
  }

  function Next(l: Limits, record: Option<Record>, now: int): Record {
    if Opens(l, record, now) then Record(now, 1, false)
    else
      var r := record.value;
      Record(r.windowStart, r.count + 1, r.notified || r.count + 1 > l.limit)
  }

  function Judge(l: Limits, record: Option<Record>, now: int): Verdict {
    if Opens(l, record, now) then Pass
    else
      var r := record.value;
      if r.count + 1 <= l.limit then Pass
      else if r.notified then Drop
      else Notify(r.windowStart + l.windowMs - now)
  }

  function Lookup(c: Cache<string, Record>, key: string): Option<Record> {
    if c.Has(key) then Some(c.entries.values[key]) else None
  }

  /** The cache after one update of `key`: a new window is set, an open one is counted in place. */
  function Touch(l: Limits, c: Cache<string, Record>, key: string, now: int): Cache<string, Record> {
    var record := Lookup(c, key);
    var found := c.Get(key);
    if Opens(l, record, now) then found.Set(key, Next(l, record, now))
    else found.(entries := found.entries.Set(key, Next(l, record, now)))
  }

  class Throttle {
    const limits: Limits
    const records: LruCache<string, Record>

    constructor (limit: int, windowMs: int, capacity: nat)
      requires capacity >= 1
      ensures limits.Valid() && fresh(records) && records.View() == Cache(capacity, Ordered(map[], []))
      ensures limits == Limits(if limit < 1 then 1 else limit, if windowMs < 1 then 1 else windowMs)
    {
      limits := Limits(if limit < 1 then 1 else limit, if windowMs < 1 then 1 else windowMs);
      records := new LruCache(capacity);
    }

    /** A write to a record that is in the cache, in place. */
    method Write(key: string, record: Record)
      requires records.View().Valid() && records.View().Has(key)
      modifies records
      ensures records.View().Valid()
      ensures records.View() == old(records.View()).(entries := old(records.entries).Set(key, record))
    {
      SetValid(records.entries, key, record);
      records.entries := records.entries.Set(key, record);
    }

    method Handle(key: string, now: int) returns (verdict: Verdict)
      requires records.View().Valid()
      modifies records
      ensures records.View().Valid() && records.View() == Touch(limits, old(records.View()), key, now)
      ensures verdict == Judge(limits, Lookup(old(records.View()), key), now)
    {
      GetValid(records.View(), key);
      var record := records.Get(key);
      if record.None? || now - record.value.windowStart >= limits.windowMs {
        records.Set(key, Record(now, 1, false));
        return Pass;
      }
      var r := record.value;
      var count := r.count + 1;
      Overwrite(records.entries, key, Record(r.windowStart, count, r.notified), Record(r.windowStart, count, true));
      Write(key, Record(r.windowStart, count, r.notified));
      if count > limits.limit {
        if !r.notified {
          Write(key, Record(r.windowStart, count, true));
          return Notify(r.windowStart + limits.windowMs - now);
        }
        return Drop;
      }
      return Pass;
    }
  }

  lemma Overwrite(m: Ordered<string, Record>, key: string, first: Record, second: Record)
    ensures m.Set(key, first).Set(key, second) == m.Set(key, second)
  {
    assert m.values[key := first][key := second] == m.values[key := second];
  }

  // ------------------------------------------------------------ one key

  predicate Monotone(times: seq<int>) {
    forall i, j :: 0 <= i < j < |times| ==> times[i] <= times[j]
  }

  /** A record that the machine can hold at time `now`. */
  predicate Reachable(record: Option<Record>, now: int) {
    record.Some? ==> record.value.windowStart <= now && 1 <= record.value.count
  }

  function Verdicts(l: Limits, record: Option<Record>, times: seq<int>): (v: seq<Verdict>)
    ensures |v| == |times|
    decreases |times|
  {
    if times == [] then []
    else [Judge(l, record, times[0])] + Verdicts(l, Some(Next(l, record, times[0])), times[1..])
  }

  /** Updates let through in the closed interval from `from` to `to`. */
  function Admitted(times: seq<int>, verdicts: seq<Verdict>, from: int, to: int): nat
    requires |times| == |verdicts|
    decreases |times|
  {
    if times == [] then 0
    else (if verdicts[0] == Pass && from <= times[0] <= to then 1 else 0) + Admitted(times[1..], verdicts[1..], from, to)
  }

  function Left(l: Limits, r: Record): nat {
    if r.count < l.limit then l.limit - r.count else 0
  }

  /** How many more updates an interval starting at `from` can admit, seen from a record. */
  function Allowance(l: Limits, record: Option<Record>, from: int): int {
    if record.None? || record.value.windowStart + l.windowMs <= from then 2 * l.limit
    else if record.value.windowStart <= from then Left(l, record.value) + l.limit
    else Left(l, record.value)
  }

  lemma {:induction false} WithinAllowance(l: Limits, record: Option<Record>, times: seq<int>, from: int)
    requires l.Valid() && Monotone(times)
    requires times != [] ==> Reachable(record, times[0])
    requires forall i :: 0 <= i < |times| ==> from <= times[i]
    ensures Admitted(times, Verdicts(l, record, times), from, from + l.windowMs) <= Allowance(l, record, from)
    decreases |times|
  {
    if times != [] {
      var after := Next(l, record, times[0]);
      WithinAllowance(l, Some(after), times[1..], from);
      if times[0] > from + l.windowMs {
        NoneLater(times[1..], Verdicts(l, Some(after), times[1..]), from, from + l.windowMs);
      }
    }
  }

  lemma {:induction false} NoneLater(times: seq<int>, verdicts: seq<Verdict>, from: int, to: int)
    requires |times| == |verdicts| && forall i :: 0 <= i < |times| ==> to < times[i]
    ensures Admitted(times, verdicts, from, to) == 0
    decreases |times|
  {
    if times != [] {
      NoneLater(times[1..], verdicts[1..], from, to);
    }
  }

  /** At most twice the limit in any interval as long as the window. */
  lemma {:induction false} AtMostTwiceTheLimit(l: Limits, record: Option<Record>, times: seq<int>, from: int)
    requires l.Valid() && Monotone(times)
    requires times != [] ==> Reachable(record, times[0])
    ensures Admitted(times, Verdicts(l, record, times), from, from + l.windowMs) <= 2 * l.limit
    decreases |times|
  {
    if times != [] {
      if from <= times[0] {
        WithinAllowance(l, record, times, from);
      } else {
        AtMostTwiceTheLimit(l, Some(Next(l, record, times[0])), times[1..], from);
      }
    }
  }

  lemma {:induction false} RestOfWindow(l: Limits, r: Record, times: seq<int>)
    requires l.Valid() && Monotone(times) && 1 <= r.count
    requires times != [] ==> r.windowStart <= times[0]
    ensures Admitted(times, Verdicts(l, Some(r), times), r.windowStart, r.windowStart + l.windowMs - 1) <= Left(l, r)
    decreases |times|
  {
    if times != [] {
      if Opens(l, Some(r), times[0]) {
        NoneLater(times, Verdicts(l, Some(r), times), r.windowStart, r.windowStart + l.windowMs - 1);
      } else {
        RestOfWindow(l, Next(l, Some(r), times[0]), times[1..]);
      }
    }
  }

  /** At most the limit in a window, the update that opens it included. */
  lemma AtMostTheLimitPerWindow(l: Limits, record: Option<Record>, times: seq<int>)
    requires l.Valid() && Monotone(times) && times != [] && Opens(l, record, times[0])
    ensures Admitted(times, Verdicts(l, record, times), times[0], times[0] + l.windowMs - 1) <= l.limit
  {
    RestOfWindow(l, Next(l, record, times[0]), times[1..]);
  }

  /** The wait named in a notice is exact: after it updates are dropped without a word until it is
      over, and the first update from then on is let through. */
  lemma {:induction false} RetryHintExact(l: Limits, record: Option<Record>, times: seq<int>, k: nat)
    requires l.Valid() && Monotone(times) && 0 < k < |times| && Reachable(record, times[0])
    requires Judge(l, record, times[0]).Notify?
    requires forall i :: 0 < i < k ==> Verdicts(l, record, times)[i] != Pass
    ensures var hint := Judge(l, record, times[0]).retryAfterMs;
            && 0 < hint <= l.windowMs
            && Verdicts(l, record, times)[k] == if times[0] + hint <= times[k] then Pass else Drop
  {
    var r := Next(l, record, times[0]);
    assert Verdicts(l, record, times)[1..] == Verdicts(l, Some(r), times[1..]);
    forall i | 0 <= i < k - 1 ensures Verdicts(l, Some(r), times[1..])[i] != Pass {
      assert Verdicts(l, record, times)[i + 1] != Pass;
    }
    QuietUntilOver(l, r, times[1..], k - 1);
  }

  lemma {:induction false} QuietUntilOver(l: Limits, r: Record, times: seq<int>, k: nat)
    requires l.Valid() && k < |times| && r.notified && l.limit < r.count
    requires forall i :: 0 <= i < k ==> Verdicts(l, Some(r), times)[i] != Pass
    ensures Verdicts(l, Some(r), times)[k] == if r.windowStart + l.windowMs <= times[k] then Pass else Drop
    decreases k
  {
    if k > 0 {
      var after := Next(l, Some(r), times[0]);
      assert Verdicts(l, Some(r), times)[0] != Pass;
      forall i | 0 <= i < k - 1 ensures Verdicts(l, Some(after), times[1..])[i] != Pass {
        assert Verdicts(l, Some(r), times)[i + 1] != Pass;
      }
      QuietUntilOver(l, after, times[1..], k - 1);
    }
  }

  /** What becomes of the i-th further update of a window in which `count` have been seen. */
  lemma {:induction false} WithinWindow(l: Limits, r: Record, times: seq<int>, i: nat)
    requires l.Valid() && i < |times| && 1 <= r.count && (r.notified <==> r.count > l.limit)
    requires forall j :: 0 <= j < |times| ==> times[j] < r.windowStart + l.windowMs
    ensures var n := r.count + i;
            Verdicts(l, Some(r), times)[i]
            == if n < l.limit then Pass else if n == l.limit then Notify(r.windowStart + l.windowMs - times[i]) else Drop
    decreases i
  {
    if i > 0 {
      WithinWindow(l, Next(l, Some(r), times[0]), times[1..], i - 1);
    }
  }

  /** Of the updates within a window, counted from the one that opens it, the first `limit` pass, the next one
      is told how long the window still lasts, and the others are dropped. */
  lemma WindowExactly(l: Limits, record: Option<Record>, times: seq<int>, i: nat)
    requires l.Valid() && i < |times| && Opens(l, record, times[0])
    requires forall j :: 0 < j < |times| ==> times[j] < times[0] + l.windowMs
    ensures Verdicts(l, record, times)[i]
            == if i < l.limit then Pass else if i == l.limit then Notify(times[0] + l.windowMs - times[i]) else Drop
  {
    if i > 0 {
      WithinWindow(l, Record(times[0], 1, false), times[1..], i - 1);
    }
  }

  /** A key without a record opens a window, and so does an update from the end of the last one on. */
  lemma OpensExactly(l: Limits, r: Record, now: int)
    ensures Opens(l, None, now) && (Opens(l, Some(r), now) <==> r.windowStart + l.windowMs <= now)
  {
  }

  // ------------------------------------------------------------ all keys

  datatype Update = Update(key: string, now: int)

  function Run(l: Limits, c: Cache<string, Record>, updates: seq<Update>): (v: seq<Verdict>)
    ensures |v| == |updates|
    decreases |updates|
  {
    if updates == [] then []
    else
      var u := updates[0];
      [Judge(l, Lookup(c, u.key), u.now)] + Run(l, Touch(l, c, u.key, u.now), updates[1..])
  }

  function TimesOf(key: string, updates: seq<Update>): seq<int>
    decreases |updates|
  {
    if updates == [] then []
    else (if updates[0].key == key then [updates[0].now] else []) + TimesOf(key, updates[1..])
  }

  function VerdictsOf(key: string, updates: seq<Update>, verdicts: seq<Verdict>): seq<Verdict>
    requires |updates| == |verdicts|
    decreases |updates|
  {
    if updates == [] then []
    else (if updates[0].key == key then [verdicts[0]] else []) + VerdictsOf(key, updates[1..], verdicts[1..])
  }

  lemma TouchFew(l: Limits, c: Cache<string, Record>, key: string, now: int, universe: set<string>)
    requires c.Valid() && c.entries.values.Keys <= universe && key in universe && |universe| <= c.capacity
    ensures var t := Touch(l, c, key, now);
            && t.Valid() && t.capacity == c.capacity && t.entries.values.Keys <= universe
            && t.entries.values == c.entries.values[key := Next(l, Lookup(c, key), now)]
  {
    GetValid(c, key);
    var found := c.Get(key);
    var next := Next(l, Lookup(c, key), now);
    if Opens(l, Lookup(c, key), now) {
      FewKeysNoEviction(found, key, next, universe);
    } else {
      SetValid(found.entries, key, next);
    }
  }

  /** While no more keys are in play than the cache holds, each key sees a throttle of its own. */
  lemma {:induction false} KeysDoNotInterfere(l: Limits, c: Cache<string, Record>, updates: seq<Update>,
                                              universe: set<string>, key: string)
    requires c.Valid() && c.entries.values.Keys <= universe && |universe| <= c.capacity
    requires forall i :: 0 <= i < |updates| ==> updates[i].key in universe
    ensures VerdictsOf(key, updates, Run(l, c, updates)) == Verdicts(l, Lookup(c, key), TimesOf(key, updates))
    decreases |updates|
  {
    if updates != [] {
      var u := updates[0];
      TouchFew(l, c, u.key, u.now, universe);
      var t := Touch(l, c, u.key, u.now);
      KeysDoNotInterfere(l, t, updates[1..], universe, key);
      if u.key == key {
        assert TimesOf(key, updates)[1..] == TimesOf(key, updates[1..]);
        assert Lookup(t, key) == Some(Next(l, Lookup(c, key), u.now));
      } else {
        assert Lookup(t, key) == Lookup(c, key);
        assert TimesOf(key, updates) == TimesOf(key, updates[1..]);
        assert VerdictsOf(key, updates, Run(l, c, updates)) == VerdictsOf(key, updates[1..], Run(l, t, updates[1..]));
      }
    }
  }

  lemma InFront(t: int, times: seq<int>)
    requires Monotone(times) && forall u :: u in times ==> t <= u
    ensures Monotone([t] + times) && [] + times == times
  {
    var s := [t] + times;
    assert forall j :: 0 < j < |s| ==> s[j] == times[j - 1];
    forall i, j | 0 <= i < j < |s| ensures s[i] <= s[j] {
      assert times[j - 1] in times;
      assert i == 0 || s[i] == times[i - 1];
    }
  }

  lemma {:induction false} TimesOfMonotone(key: string, updates: seq<Update>)
    requires forall i, j :: 0 <= i < j < |updates| ==> updates[i].now <= updates[j].now
    ensures Monotone(TimesOf(key, updates))
    ensures forall t :: t in TimesOf(key, updates) ==> updates[0].now <= t
    decreases |updates|
  {
    if updates != [] {
      TimesOfMonotone(key, updates[1..]);
      InFront(updates[0].now, TimesOf(key, updates[1..]));
    }
  }

  /** A flood through a fresh throttle: no key gets more than twice the limit in any window's length. */
  lemma FloodIsBounded(l: Limits, capacity: nat, updates: seq<Update>, universe: set<string>, key: string, from: int)
    requires l.Valid() && 1 <= capacity && |universe| <= capacity
    requires forall i :: 0 <= i < |updates| ==> updates[i].key in universe
    requires forall i, j :: 0 <= i < j < |updates| ==> updates[i].now <= updates[j].now
    ensures var verdicts := Run(l, Cache(capacity, Ordered(map[], [])), updates);
            && |TimesOf(key, updates)| == |VerdictsOf(key, updates, verdicts)|
            && Admitted(TimesOf(key, updates), VerdictsOf(key, updates, verdicts), from, from + l.windowMs) <= 2 * l.limit
  {
    KeysDoNotInterfere(l, Cache(capacity, Ordered(map[], [])), updates, universe, key);
    TimesOfMonotone(key, updates);
    AtMostTwiceTheLimit(l, None, TimesOf(key, updates), from);
  }
}
