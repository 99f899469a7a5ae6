/** What becomes of an event that cannot be decrypted when it comes: when it waits, when its key ends the
    waiting with a call, and when it is given up. */
module LateDecryption {
  import opened Optional
  import opened Lru
  import opened Dedup
  import opened Delivery

  // ------------------------------------------------------------------- waiting for the key

  /** The client stands to an event as before: its entry in the queue and the calls for it. */
  ghost predicate Alike(c: Client, t: Client, key: Key) {
    && Shape(t) && t.notBefore == c.notBefore
    && (key in t.pending.values <==> key in c.pending.values)
    && (key in c.pending.values ==> t.pending.values[key] == c.pending.values[key])
    && Deliveries(t.log, key) == Deliveries(c.log, key)
    && (key !in c.ring.remembered ==> key !in t.ring.remembered)
  }

  ghost predicate IsOther(room: Room, e: Event, key: Key) {
    e.id == "" || EventKey(room, e.id) != key
  }

  lemma AlikeTwice(c: Client, d: Client, t: Client, key: Key)
    requires Alike(c, d, key) && Alike(d, t, key)
    ensures Alike(c, t, key)
  {
  }

  lemma QueueOther(c: Client, room: Room, e: Event, key: Key, now: int)
    requires Shape(c) && IsOther(room, e, key) && |c.pending.order| < MAX_PENDING_DECRYPT
    ensures Alike(c, c.QueuePending(room, e, now), key)
    ensures |c.QueuePending(room, e, now).pending.order| <= |c.pending.order| + 1
  {
    QueueShape(c, room, e, now);
    QueueLog(c, room, e, now);
    if e.id != "" {
      SetValid(c.pending, EventKey(room, e.id), Pending(room, e, now, 1));
    }
  }

  lemma ForgetOther(c: Client, other: Key, key: Key)
    requires Shape(c) && other != key
    ensures Alike(c, c.(pending := c.pending.Delete(other)), key)
    ensures |c.pending.Delete(other).order| <= |c.pending.order|
  {
    DeleteValid(c.pending, other);
  }

  lemma DeliverOther(c: Client, room: Room, id: string, ts: Option<int>, path: Path, key: Key)
    requires Shape(c) && (path.Capability? || id == "" || EventKey(room, id) != key)
    ensures Alike(c, c.Deliver(room, id, ts, path), key)
  {
    DeliverCounts(c, room, id, ts, path, key);
  }

  lemma TakeOther(c: Client, other: Key, key: Key)
    requires Shape(c) && other != key && other !in c.ring.remembered
    ensures Alike(c, Taken(c, other), key)
  {
    SpacedStep(c.ring, c.recorded, other);
  }

  lemma DispatchOther(c: Client, room: Room, e: Event, key: Key, now: int)
    requires Shape(c) && IsOther(room, e, key) && |c.pending.order| < MAX_PENDING_DECRYPT
    ensures Alike(c, c.Dispatch(room, e, now).0, key)
    ensures |c.Dispatch(room, e, now).0.pending.order| <= |c.pending.order| + 1
  {
    hide Shape;
    Unmoved(c);
    QueueOther(c, room, e, key, now);
    if e.encrypted && e.id != "" {
      var d := c.(pending := c.pending.Delete(EventKey(room, e.id)));
      ForgetOther(c, EventKey(room, e.id), key);
      DeliverOther(d, room, e.id, e.ts, Timeline, key);
    } else {
      DeliverOther(c, room, e.id, e.ts, Timeline, key);
    }
  }

  /** Taking up another event changes nothing for this one while the queue has room. */
  lemma EmitOther(c: Client, room: Room, e: Event, key: Key, now: int)
    requires Shape(c) && IsOther(room, e, key) && |c.pending.order| < MAX_PENDING_DECRYPT
    ensures Alike(c, c.EmitTimelineEvent(room, e, now).0, key)
    ensures |c.EmitTimelineEvent(room, e, now).0.pending.order| <= |c.pending.order| + 1
  {
    hide Shape;
    hide Client.Dispatch;
    DispatchOther(c, room, e, key, now);
    if e.id != "" && EventKey(room, e.id) !in c.ring.remembered {
      var d := Taken(c, EventKey(room, e.id));
      TakeOther(c, EventKey(room, e.id), key);
      DispatchOther(d, room, e, key, now);
    }
  }

  lemma {:induction false} EmitAllOther(c: Client, room: Room, es: seq<Event>, key: Key, now: int)
    requires Shape(c) && (forall e :: e in es ==> IsOther(room, e, key))
    requires |c.pending.order| + |es| <= MAX_PENDING_DECRYPT
    ensures Alike(c, c.EmitAll(room, es, now).0, key)
    ensures |c.EmitAll(room, es, now).0.pending.order| <= |c.pending.order| + |es|
    decreases |es|
  {
    hide Shape;
    hide Deliveries;
    hide Client.EmitTimelineEvent;
    if es != [] {
      EmitOther(c, room, es[0], key, now);
      var (t, threw) := c.EmitTimelineEvent(room, es[0], now);
      if !threw {
        EmitAllOther(t, room, es[1..], key, now);
      }
    }
  }

  lemma {:induction false} StatesOther(c: Client, room: Room, states: seq<CapabilityState>, key: Key)
    requires Shape(c)
    ensures Alike(c, c.ShowCapabilities(room, states).0, key)
    ensures c.ShowCapabilities(room, states).0.pending == c.pending
    decreases |states|
  {
    if states != [] {
      DeliverOther(c, room, states[0].id, None, Capability, key);
      if !states[0].throws {
        StatesOther(c.Deliver(room, states[0].id, None, Capability), room, states[1..], key);
      }
    }
  }

  ghost predicate OthersOnly(rooms: seq<RoomSync>, key: Key) {
    forall i :: i in Items(rooms) ==> IsOther(i.room, i.event, key)
  }

  lemma OthersSplit(rooms: seq<RoomSync>, key: Key)
    requires rooms != [] && OthersOnly(rooms, key)
    ensures forall e :: e in rooms[0].timeline ==> IsOther(rooms[0].room, e, key)
    ensures OthersOnly(rooms[1..], key) && |Items(rooms)| == |rooms[0].timeline| + |Items(rooms[1..])|
  {
    var first := ItemsOf(rooms[0].room, rooms[0].timeline);
    assert Items(rooms) == first + Items(rooms[1..]);
    forall e | e in rooms[0].timeline ensures IsOther(rooms[0].room, e, key) {
      var k :| 0 <= k < |rooms[0].timeline| && rooms[0].timeline[k] == e;
      assert first[k] in Items(rooms);
    }
  }

  lemma RoomOther(c: Client, r: RoomSync, isBootstrap: bool, key: Key, now: int)
    requires Shape(c) && (forall e :: e in r.timeline ==> IsOther(r.room, e, key))
    requires |c.pending.order| + |r.timeline| <= MAX_PENDING_DECRYPT
    ensures Alike(c, c.JoinedRoom(r, isBootstrap, now).0, key)
    ensures |c.JoinedRoom(r, isBootstrap, now).0.pending.order| <= |c.pending.order| + |r.timeline|
  {
    hide Shape;
    hide Deliveries;
    hide Client.EmitAll;
    var d := c.ShowCapabilities(r.room, r.capabilities).0;
    StatesOther(c, r.room, r.capabilities, key);
    EmitAllOther(d, r.room, r.timeline, key, now);
    AlikeTwice(c, d, d.EmitAll(r.room, r.timeline, now).0, key);
  }

  lemma {:induction false} RoomsOther(c: Client, rooms: seq<RoomSync>, isBootstrap: bool, key: Key, now: int)
    requires Shape(c) && OthersOnly(rooms, key) && |c.pending.order| + |Items(rooms)| <= MAX_PENDING_DECRYPT
    ensures Alike(c, c.JoinedRooms(rooms, isBootstrap, now).0, key)
    decreases |rooms|
  {
    hide Shape;
    hide Deliveries;
    hide OthersOnly;
    hide Client.JoinedRoom;
    if rooms != [] {
      OthersSplit(rooms, key);
      RoomOther(c, rooms[0], isBootstrap, key, now);
      var (t, threw) := c.JoinedRoom(rooms[0], isBootstrap, now);
      if !threw {
        RoomsOther(t, rooms[1..], isBootstrap, key, now);
        AlikeTwice(c, t, c.JoinedRooms(rooms, isBootstrap, now).0, key);
      }
    }
  }

  lemma CountOther(c: Client, other: Key, key: Key)
    requires Shape(c) && other != key && other in c.pending.values
    ensures var p := c.pending.values[other]; var m := c.pending.Set(other, p.(attempts := p.attempts + 1));
            Alike(c, c.(pending := m), key) && |m.order| <= |c.pending.order|
  {
    SetValid(c.pending, other, c.pending.values[other].(attempts := c.pending.values[other].attempts + 1));
  }

  lemma RetryOneOther(c: Client, other: Key, retryable: set<Key>, key: Key, now: int)
    requires Shape(c) && other != key
    ensures Alike(c, c.RetryOne(other, retryable, now), key)
    ensures |c.RetryOne(other, retryable, now).pending.order| <= |c.pending.order|
  {
    Unmoved(c);
    if other in c.pending.values {
      var p := c.pending.values[other];
      var d := c.(pending := c.pending.Delete(other));
      assert p.event.id != "" && EventKey(p.room, p.event.id) == other;
      ForgetOther(c, other, key);
      DeliverOther(d, p.room, p.event.id, p.event.ts, Late, key);
      CountOther(c, other, key);
      hide Shape;
      hide Deliveries;
      AlikeTwice(c, d, d.Deliver(p.room, p.event.id, p.event.ts, Late), key);
    }
  }

  /** May a retry still be tried for this entry? It is young enough and has attempts left. */
  predicate Open(p: Pending, now: int, attempts: int) {
    now - p.firstSeen <= PENDING_DECRYPT_TTL_MS && attempts < MAX_DECRYPT_ATTEMPTS
  }

  /** One retry of a waiting event: given up, delivered late, or counted. */
  ghost predicate RetriedOnce(c: Client, t: Client, key: Key, retryable: set<Key>, now: int)
    requires key in c.pending.values
  {
    var p := c.pending.values[key];
    && Shape(t) && t.notBefore == c.notBefore
    && if Open(p, now, p.attempts) && key !in retryable then
         && key in t.pending.values && t.pending.values[key] == p.(attempts := p.attempts + 1)
         && Deliveries(t.log, key) == Deliveries(c.log, key)
       else
         && key !in t.pending.values
         && Deliveries(t.log, key) == Deliveries(c.log, key) + (if Open(p, now, p.attempts) then 1 else 0)
         && (Open(p, now, p.attempts) ==> Delivered(p.room, p.event.id, p.event.ts, Late) in t.log)
  }

  lemma RetryThis(c: Client, retryable: set<Key>, key: Key, now: int)
    requires Shape(c) && key in c.pending.values
    ensures RetriedOnce(c, c.RetryOne(key, retryable, now), key, retryable, now)
    ensures |c.RetryOne(key, retryable, now).pending.order| <= |c.pending.order|
  {
    var p := c.pending.values[key];
    DeleteValid(c.pending, key);
    SetValid(c.pending, key, p.(attempts := p.attempts + 1));
    DeliverCounts(c.(pending := c.pending.Delete(key)), p.room, p.event.id, p.event.ts, Late, key);
  }

  lemma {:induction false} RetryOthers(c: Client, keys: seq<Key>, retryable: set<Key>, key: Key, now: int)
    requires Shape(c) && key !in keys
    ensures Alike(c, c.Retry(keys, retryable, now), key)
    ensures |c.Retry(keys, retryable, now).pending.order| <= |c.pending.order|
    ensures c.log <= c.Retry(keys, retryable, now).log
    decreases |keys|
  {
    hide Shape;
    hide Deliveries;
    if keys != [] {
      RetryOneOther(c, keys[0], retryable, key, now);
      RetryOthers(c.RetryOne(keys[0], retryable, now), keys[1..], retryable, key, now);
    }
  }

  lemma {:induction false} RetryFate(c: Client, keys: seq<Key>, retryable: set<Key>, key: Key, now: int)
    requires Shape(c) && Distinct(keys) && key in keys && key in c.pending.values
    ensures RetriedOnce(c, c.Retry(keys, retryable, now), key, retryable, now)
    ensures |c.Retry(keys, retryable, now).pending.order| <= |c.pending.order|
    decreases |keys|
  {
    hide Shape;
    hide Deliveries;
    var d := c.RetryOne(keys[0], retryable, now);
    if keys[0] == key {
      RetryThis(c, retryable, key, now);
      assert key !in keys[1..];
      RetryOthers(d, keys[1..], retryable, key, now);
    } else {
      RetryOneOther(c, keys[0], retryable, key, now);
      RetryFate(d, keys[1..], retryable, key, now);
    }
  }

  /** A step in which this event is neither met nor pushed out of the queue. */
  ghost predicate Spares(c: Client, step: Step, key: Key) {
    match step
    case Synced(b) => OthersOnly(b.rooms, key) && |c.pending.order| + |Items(b.rooms)| <= MAX_PENDING_DECRYPT
    case Read(room, e, _) => IsOther(room, e, key) && |c.pending.order| < MAX_PENDING_DECRYPT
  }

  ghost predicate SparesAll(c: Client, steps: seq<Step>, key: Key)
    decreases |steps|
  {
    steps == [] || (Spares(c, steps[0], key) && SparesAll(After(c, steps[0]), steps[1..], key))
  }

  ghost predicate Retries(step: Step) {
    step.Synced? && !step.batch.failure.BeforeRetry?
  }

  /** A step that does not retry, or does not find the event waiting, leaves it as it was. */
  lemma StepAlike(c: Client, step: Step, key: Key)
    requires Shape(c) && Spares(c, step, key) && (Retries(step) ==> key !in c.pending.values)
    ensures var d := if step.Synced? then c.Noted(step.batch.isBootstrap, step.batch.now) else c;
            Alike(d, After(c, step), key)
    ensures Deliveries(After(c, step).log, key) == Deliveries(c.log, key)
    ensures key in After(c, step).pending.values <==> key in c.pending.values
    ensures key in c.pending.values ==> After(c, step).pending.values[key] == c.pending.values[key]
    ensures Shape(After(c, step))
  {
    hide Deliveries;
    hide Client.JoinedRooms;
    hide Client.Retry;
    match step
    case Synced(b) =>
      var d := c.Noted(b.isBootstrap, b.now);
      NotedInv(c, b.isBootstrap, b.now);
      Unmoved(d);
      if Retries(step) {
        RetryOthers(d, d.pending.order, b.retryable, key, b.now);
        RoomsOther(d.Retry(d.pending.order, b.retryable, b.now), b.rooms, b.isBootstrap, key, b.now);
      }
    case Read(room, e, now) => FetchOther(c, room, e, key, now);
  }

  lemma FetchOther(c: Client, room: Room, e: Event, key: Key, now: int)
    requires Shape(c) && IsOther(room, e, key) && |c.pending.order| < MAX_PENDING_DECRYPT
    ensures Alike(c, c.Fetch(room, e, now), key)
  {
    QueueOther(c, room, e, key, now);
    if e.id != "" {
      ForgetOther(c, EventKey(room, e.id), key);
    }
  }

  lemma StepRetries(c: Client, step: Step, key: Key)
    requires Shape(c) && Spares(c, step, key) && Retries(step) && key in c.pending.values
    ensures var b, p, t := step.batch, c.pending.values[key], After(c, step);
            && Shape(t)
            && (key in t.pending.values <==> Open(p, b.now, p.attempts) && key !in b.retryable)
            && (key in t.pending.values ==> t.pending.values[key] == p.(attempts := p.attempts + 1))
            && Deliveries(t.log, key)
               == Deliveries(c.log, key) + if Open(p, b.now, p.attempts) && key in b.retryable then 1 else 0
  {
    hide Deliveries;
    hide Client.JoinedRooms;
    hide Client.Retry;
    hide OthersOnly;
    var b := step.batch;
    var d := c.Noted(b.isBootstrap, b.now);
    var e := d.Retry(d.pending.order, b.retryable, b.now);
    NotedInv(c, b.isBootstrap, b.now);
    RetryFate(d, d.pending.order, b.retryable, key, b.now);
    RoomsOther(e, b.rooms, b.isBootstrap, key, b.now);
  }

  /** How often a session retries. */
  ghost function RetryBatches(steps: seq<Step>): seq<Batch> {
    if steps == [] then []
    else (if Retries(steps[0]) then [steps[0].batch] else []) + RetryBatches(steps[1..])
  }

  /** In each of the first n retries the entry may be tried, and its key has not come. */
  ghost predicate Waits(p: Pending, key: Key, batches: seq<Batch>, n: nat)
    requires n <= |batches|
  {
    forall i :: 0 <= i < n ==> Open(p, batches[i].now, p.attempts + i) && key !in batches[i].retryable
  }

  /** The n-th retry ends the waiting: the key has come, or there is no trying any more. */
  ghost predicate Settles(p: Pending, key: Key, batches: seq<Batch>, n: nat, found: bool)
    requires n < |batches|
  {
    && Waits(p, key, batches, n)
    && if found then Open(p, batches[n].now, p.attempts + n) && key in batches[n].retryable
       else !Open(p, batches[n].now, p.attempts + n)
  }

  ghost predicate SettledBy(p: Pending, key: Key, batches: seq<Batch>, found: bool) {
    exists n :: 0 <= n < |batches| && Settles(p, key, batches, n, found)
  }

  lemma WaitsShift(p: Pending, key: Key, b: Batch, rest: seq<Batch>, n: nat)
    requires n <= |rest|
    ensures Waits(p, key, [b] + rest, n + 1)
            <==> Open(p, b.now, p.attempts) && key !in b.retryable
                 && Waits(p.(attempts := p.attempts + 1), key, rest, n)
  {
    var all := [b] + rest;
    assert all[0] == b && forall i :: 0 <= i < |rest| ==> all[i + 1] == rest[i];
    forall i | 0 <= i < n
      ensures Open(p, all[i + 1].now, p.attempts + (i + 1)) <==> Open(p.(attempts := p.attempts + 1), rest[i].now, p.attempts + 1 + i)
    {
    }
    if Waits(p, key, all, n + 1) {
      forall i | 0 <= i < n
        ensures Open(p.(attempts := p.attempts + 1), rest[i].now, p.attempts + 1 + i) && key !in rest[i].retryable
      {
        assert Open(p, all[i + 1].now, p.attempts + (i + 1));
      }
      assert Open(p, all[0].now, p.attempts + 0);
    }
    if Waits(p.(attempts := p.attempts + 1), key, rest, n) && Open(p, b.now, p.attempts) && key !in b.retryable {
      forall i | 0 <= i < n + 1 ensures Open(p, all[i].now, p.attempts + i) && key !in all[i].retryable {
        if i > 0 {
          assert Open(p.(attempts := p.attempts + 1), rest[i - 1].now, p.attempts + 1 + (i - 1));
        }
      }
    }
  }

  lemma SettledShift(p: Pending, key: Key, b: Batch, rest: seq<Batch>, found: bool)
    ensures SettledBy(p, key, [b] + rest, found)
            <==> if Open(p, b.now, p.attempts) && key !in b.retryable
                 then SettledBy(p.(attempts := p.attempts + 1), key, rest, found)
                 else found == Open(p, b.now, p.attempts)
  {
    hide Open;
    hide Waits;
    var all, q := [b] + rest, p.(attempts := p.attempts + 1);
    assert all[0] == b && forall i :: 0 <= i < |rest| ==> all[i + 1] == rest[i];
    NoneYet(p, key, all);
    if Open(p, b.now, p.attempts) && key !in b.retryable {
      forall n: nat | n < |rest| ensures Settles(p, key, all, n + 1, found) <==> Settles(q, key, rest, n, found) {
        WaitsShift(p, key, b, rest, n);
        SameOpen(p, rest[n].now, n);
      }
      if n :| 0 <= n < |all| && Settles(p, key, all, n, found) {
        assert n > 0;
        assert Settles(q, key, rest, n - 1, found);
      }
      if n :| 0 <= n < |rest| && Settles(q, key, rest, n, found) {
        assert Settles(p, key, all, n + 1, found);
      }
    } else {
      assert Settles(p, key, all, 0, Open(p, b.now, p.attempts));
      if n :| 0 <= n < |all| && Settles(p, key, all, n, found) {
        if n > 0 {
          WaitsShift(p, key, b, rest, n - 1);
        }
      }
    }
  }

  lemma NoneYet(p: Pending, key: Key, batches: seq<Batch>)
    ensures Waits(p, key, batches, 0)
  {
  }

  lemma SameOpen(p: Pending, now: int, n: nat)
    ensures Open(p.(attempts := p.attempts + 1), now, p.attempts + 1 + n) <==> Open(p, now, p.attempts + (n + 1))
  {
  }

  lemma {:induction false} GoneStays(c: Client, steps: seq<Step>, key: Key)
    requires Shape(c) && key !in c.pending.values && SparesAll(c, steps, key)
    ensures key !in Session(c, steps).pending.values && Deliveries(Session(c, steps).log, key) == Deliveries(c.log, key)
    decreases |steps|
  {
    hide Shape;
    hide Spares;
    hide Deliveries;
    if steps != [] {
      StepAlike(c, steps[0], key);
      GoneStays(After(c, steps[0]), steps[1..], key);
    }
  }

  /** What becomes of a waiting event over any batches and fetches that do not meet it and leave the queue
      room: it is delivered late, once, exactly when its key comes by a retry before which it had attempts
      left and was young enough each time; it leaves undelivered exactly when a retry finds it too old or
      tried too often first; and it waits on otherwise, with its attempts counted. */
  lemma {:induction false} WaitingFate(c: Client, steps: seq<Step>, key: Key)
    requires Shape(c) && key in c.pending.values && SparesAll(c, steps, key)
    ensures var p, batches, t := c.pending.values[key], RetryBatches(steps), Session(c, steps);
            && Deliveries(t.log, key) == Deliveries(c.log, key) + (if SettledBy(p, key, batches, true) then 1 else 0)
            && (key in t.pending.values <==> !SettledBy(p, key, batches, true) && !SettledBy(p, key, batches, false))
            && (key in t.pending.values ==> t.pending.values[key] == p.(attempts := p.attempts + |batches|))
            && !(SettledBy(p, key, batches, true) && SettledBy(p, key, batches, false))
    decreases |steps|
  {
    hide Shape;
    hide Spares;
    hide Deliveries;
    hide SettledBy;
    var p := c.pending.values[key];
    if steps == [] {
      NeverSettled(p, key, true);
      NeverSettled(p, key, false);
    } else {
      var t := After(c, steps[0]);
      if Retries(steps[0]) {
        var b, rest := steps[0].batch, RetryBatches(steps[1..]);
        StepRetries(c, steps[0], key);
        SettledShift(p, key, b, rest, true);
        SettledShift(p, key, b, rest, false);
        assert RetryBatches(steps) == [b] + rest;
        if key in t.pending.values {
          WaitingFate(t, steps[1..], key);
        } else {
          GoneStays(t, steps[1..], key);
        }
      } else {
        StepAlike(c, steps[0], key);
        assert RetryBatches(steps) == [] + RetryBatches(steps[1..]) == RetryBatches(steps[1..]);
        WaitingFate(t, steps[1..], key);
      }
    }
  }

  lemma NeverSettled(p: Pending, key: Key, found: bool)
    ensures !SettledBy(p, key, [], found)
  {
  }

  // ------------------------------------------------------------------- how an event comes to wait

  /** The event is recent and not abandoned, but encrypted and unreadable. */
  predicate Unreadable(notBefore: Option<int>, e: Event) {
    && !(notBefore.Some? && e.ts.Some? && e.ts.value < notBefore.value)
    && !e.dropped && e.encrypted && !e.readable
  }

  /** What meeting a new event from its timeline does about it: it waits when unreadable, and is called and
      waits no more when due. */
  ghost predicate Met(c: Client, t: Client, room: Room, e: Event, now: int) {
    var key := EventKey(room, e.id);
    && Shape(t) && t.notBefore == c.notBefore
    && Deliveries(t.log, key) == Deliveries(c.log, key) + (if Due(c.notBefore, e) then 1 else 0)
    && (key in t.pending.values <==>
          Unreadable(c.notBefore, e) || (key in c.pending.values && !(Due(c.notBefore, e) && e.encrypted)))
    && (key in t.pending.values ==>
          t.pending.values[key]
          == if !Unreadable(c.notBefore, e) then c.pending.values[key]
             else if key in c.pending.values then c.pending.values[key].(attempts := c.pending.values[key].attempts + 1)
             else Pending(room, e, now, 1))
  }

  lemma QueueThis(c: Client, room: Room, e: Event, now: int)
    requires Shape(c) && e.id != "" && |c.pending.order| < MAX_PENDING_DECRYPT
    ensures var key, t := EventKey(room, e.id), c.QueuePending(room, e, now);
            && Shape(t) && key in t.pending.values && t.log == c.log && t.notBefore == c.notBefore
            && t.pending.values[key] == (if key in c.pending.values
                 then c.pending.values[key].(attempts := c.pending.values[key].attempts + 1) else Pending(room, e, now, 1))
            && |t.pending.order| <= |c.pending.order| + 1
  {
    QueueShape(c, room, e, now);
    SetValid(c.pending, EventKey(room, e.id), Pending(room, e, now, 1));
  }

  lemma CallThis(c: Client, room: Room, e: Event, now: int)
    requires Shape(c) && e.id != ""
    ensures var key := EventKey(room, e.id); var d := c.(pending := c.pending.Delete(key));
            && Shape(d) && Shape(d.Deliver(room, e.id, e.ts, Timeline)) && Shape(c.Deliver(room, e.id, e.ts, Timeline))
            && key !in d.pending.values && |d.pending.order| <= |c.pending.order|
            && Deliveries(c.Deliver(room, e.id, e.ts, Timeline).log, key) == Deliveries(c.log, key) + 1
  {
    DeleteValid(c.pending, EventKey(room, e.id));
    DeliverCounts(c, room, e.id, e.ts, Timeline, EventKey(room, e.id));
  }

  lemma EmitThis(c: Client, room: Room, e: Event, now: int)
    requires Shape(c) && e.id != "" && EventKey(room, e.id) !in c.ring.remembered
    requires |c.pending.order| < MAX_PENDING_DECRYPT
    ensures Met(c, c.EmitTimelineEvent(room, e, now).0, room, e, now)
    ensures |c.EmitTimelineEvent(room, e, now).0.pending.order| <= |c.pending.order| + 1
  {
    hide Shape;
    hide Deliveries;
    hide Client.QueuePending;
    var key := EventKey(room, e.id);
    var d := Taken(c, key);
    TakenShape(c, key);
    QueueThis(d, room, e, now);
    CallThis(d, room, e, now);
  }

  lemma TakenShape(c: Client, key: Key)
    requires Shape(c) && key !in c.ring.remembered
    ensures Shape(Taken(c, key))
  {
    SpacedStep(c.ring, c.recorded, key);
  }

  lemma MetThen(c: Client, d: Client, t: Client, room: Room, e: Event, now: int)
    requires Met(c, d, room, e, now) && Alike(d, t, EventKey(room, e.id))
    ensures Met(c, t, room, e, now)
  {
  }

  lemma ThenMet(c: Client, d: Client, t: Client, room: Room, e: Event, now: int)
    requires Alike(c, d, EventKey(room, e.id)) && Met(d, t, room, e, now)
    ensures Met(c, t, room, e, now)
  {
  }

  lemma {:induction false} TimelineMeets(c: Client, room: Room, es: seq<Event>, j: nat, now: int)
    requires j < |es| && es[j].id != "" && Shape(c) && EventKey(room, es[j].id) !in c.ring.remembered
    requires forall i :: 0 <= i < |es| && i != j ==> IsOther(room, es[i], EventKey(room, es[j].id))
    requires |c.pending.order| + |es| <= MAX_PENDING_DECRYPT && !c.EmitAll(room, es, now).1
    ensures Met(c, c.EmitAll(room, es, now).0, room, es[j], now)
    ensures |c.EmitAll(room, es, now).0.pending.order| <= |c.pending.order| + |es|
    decreases j
  {
    hide Shape;
    hide Deliveries;
    hide Met;
    hide Client.EmitTimelineEvent;
    var key, d := EventKey(room, es[j].id), c.EmitTimelineEvent(room, es[0], now).0;
    if j == 0 {
      EmitThis(c, room, es[0], now);
      MetShape(c, d, room, es[0], now);
      EmitAllOther(d, room, es[1..], key, now);
      MetThen(c, d, c.EmitAll(room, es, now).0, room, es[0], now);
    } else {
      EmitOther(c, room, es[0], key, now);
      assert forall i :: 0 <= i < |es[1..]| ==> es[1..][i] == es[i + 1];
      TimelineMeets(d, room, es[1..], j - 1, now);
      ThenMet(c, d, c.EmitAll(room, es, now).0, room, es[j], now);
    }
  }

  lemma MetShape(c: Client, d: Client, room: Room, e: Event, now: int)
    requires Met(c, d, room, e, now)
    ensures Shape(d)
  {
  }

  /** Every timeline event of these rooms but the j-th of the r-th is another one. */
  ghost predicate OthersBut(rooms: seq<RoomSync>, r: int, j: int, key: Key) {
    forall a, b :: 0 <= a < |rooms| && 0 <= b < |rooms[a].timeline| && !(a == r && b == j) ==>
      IsOther(rooms[a].room, rooms[a].timeline[b], key)
  }

  lemma {:induction false} AllOthers(rooms: seq<RoomSync>, key: Key)
    requires OthersBut(rooms, -1, 0, key)
    ensures OthersOnly(rooms, key)
    decreases |rooms|
  {
    if rooms != [] {
      var first := ItemsOf(rooms[0].room, rooms[0].timeline);
      assert OthersBut(rooms[1..], -1, 0, key) by {
        assert forall a :: 0 <= a < |rooms[1..]| ==> rooms[1..][a] == rooms[a + 1];
      }
      AllOthers(rooms[1..], key);
      forall i | i in Items(rooms) ensures IsOther(i.room, i.event, key) {
        if i in first {
          var b :| 0 <= b < |first| && first[b] == i;
          assert first[b] == Item(rooms[0].room, rooms[0].timeline[b]);
        }
      }
    }
  }

  lemma RoomMeets(c: Client, r: RoomSync, j: nat, now: int)
    requires j < |r.timeline| && r.timeline[j].id != "" && Shape(c)
    requires EventKey(r.room, r.timeline[j].id) !in c.ring.remembered
    requires forall i :: 0 <= i < |r.timeline| && i != j ==>
               IsOther(r.room, r.timeline[i], EventKey(r.room, r.timeline[j].id))
    requires |c.pending.order| + |r.timeline| <= MAX_PENDING_DECRYPT && !c.JoinedRoom(r, false, now).1
    ensures Met(c, c.JoinedRoom(r, false, now).0, r.room, r.timeline[j], now)
    ensures |c.JoinedRoom(r, false, now).0.pending.order| <= |c.pending.order| + |r.timeline|
  {
    hide Shape;
    hide Deliveries;
    hide Met;
    hide Client.EmitAll;
    hide Client.ShowCapabilities;
    var key, d := EventKey(r.room, r.timeline[j].id), c.ShowCapabilities(r.room, r.capabilities).0;
    StatesOther(c, r.room, r.capabilities, key);
    TimelineMeets(d, r.room, r.timeline, j, now);
    ThenMet(c, d, d.EmitAll(r.room, r.timeline, now).0, r.room, r.timeline[j], now);
  }

  lemma {:induction false} RoomsMeet(c: Client, rooms: seq<RoomSync>, r: nat, j: nat, now: int)
    requires r < |rooms| && j < |rooms[r].timeline| && rooms[r].timeline[j].id != "" && Shape(c)
    requires EventKey(rooms[r].room, rooms[r].timeline[j].id) !in c.ring.remembered
    requires OthersBut(rooms, r, j, EventKey(rooms[r].room, rooms[r].timeline[j].id))
    requires |c.pending.order| + |Items(rooms)| <= MAX_PENDING_DECRYPT && !c.JoinedRooms(rooms, false, now).1
    ensures Met(c, c.JoinedRooms(rooms, false, now).0, rooms[r].room, rooms[r].timeline[j], now)
    decreases r
  {
    hide Shape;
    hide Deliveries;
    hide Met;
    hide Client.JoinedRoom;
    var room, e, rest := rooms[r].room, rooms[r].timeline[j], rooms[1..];
    var key, t := EventKey(room, e.id), c.JoinedRoom(rooms[0], false, now).0;
    assert |Items(rooms)| == |rooms[0].timeline| + |Items(rest)|;
    assert forall a :: 0 <= a < |rest| ==> rest[a] == rooms[a + 1];
    if r == 0 {
      RoomMeets(c, rooms[0], j, now);
      MetShape(c, t, room, e, now);
      assert OthersBut(rest, -1, 0, key);
      AllOthers(rest, key);
      RoomsOther(t, rest, false, key, now);
      MetThen(c, t, c.JoinedRooms(rooms, false, now).0, room, e, now);
    } else {
      assert forall e :: e in rooms[0].timeline ==> IsOther(rooms[0].room, e, key);
      RoomOther(c, rooms[0], false, key, now);
      RoomsMeet(t, rest, r - 1, j, now);
      ThenMet(c, t, c.JoinedRooms(rooms, false, now).0, room, e, now);
    }
  }

  /** A batch that goes through and brings a new event: unreadable, the event waits from then on, first
      tried and first seen now; due, it is called once and does not wait. */
  lemma NewEventIsMet(c: Client, b: Batch, r: nat, j: nat)
    requires Shape(c) && !b.isBootstrap && !c.Sync(b).1
    requires r < |b.rooms| && j < |b.rooms[r].timeline| && b.rooms[r].timeline[j].id != ""
    requires var key := EventKey(b.rooms[r].room, b.rooms[r].timeline[j].id);
             key !in c.ring.remembered && key !in c.pending.values && OthersBut(b.rooms, r, j, key)
    requires |c.pending.order| + |Items(b.rooms)| <= MAX_PENDING_DECRYPT
    ensures var room, e, t := b.rooms[r].room, b.rooms[r].timeline[j], c.Sync(b).0; var key := EventKey(room, e.id);
            && Deliveries(t.log, key) == Deliveries(c.log, key) + (if Due(c.notBefore, e) then 1 else 0)
            && (key in t.pending.values <==> Unreadable(c.notBefore, e))
            && (key in t.pending.values ==> t.pending.values[key] == Pending(room, e, b.now, 1))
  {
    hide Shape;
    hide Deliveries;
    hide Client.Retry;
    hide Client.JoinedRooms;
    var room, e := b.rooms[r].room, b.rooms[r].timeline[j];
    var key, d := EventKey(room, e.id), c.Retry(c.pending.order, b.retryable, b.now);
    OrderOnly(c, key);
    RetryOthers(c, c.pending.order, b.retryable, key, b.now);
    RoomsMeet(d, b.rooms, r, j, b.now);
    ThenMet(c, d, c.Sync(b).0, room, e, b.now);
  }

  lemma OrderOnly(c: Client, key: Key)
    requires Shape(c) && key !in c.pending.values
    ensures key !in c.pending.order
  {
  }
}
