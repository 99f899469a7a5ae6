/** Delivering room events to the handlers: bootstrap, cut-off, deduplication and late decryption.

    A batch carries, with each event, what the outside decides about it. `Client` is the state as a
    value, with the history of recorded keys and of handler calls; the class `MatrixClient` does the
    same in place and is proved to agree. A session is a series of moves, those of batches and fetches in
    any order; a batch is such a series (`SyncIsPlay`). */
module Delivery {
  import opened Optional
  import opened Lru
  import opened Dedup

  type Room = string

  const DEDUP_CAPACITY := 2048
  const MAX_PENDING_DECRYPT := 512
  const PENDING_DECRYPT_TTL_MS := 15 * 60 * 1000
  const MAX_DECRYPT_ATTEMPTS := 6

  /** A timeline event. `readable`: the machine decrypts it now. `dropped`: the task is abandoned, since
      the client stops or crypto is not ready. `throws`: the handler throws on it. */
  datatype Event = Event(id: string, ts: Option<int>, encrypted: bool, readable: bool, dropped: bool, throws: bool)

  /** A capability state event, and whether the handler throws on it. */
  datatype CapabilityState = CapabilityState(id: string, throws: bool)

  /** A joined room of a batch: its capability state events, whether key tracking went well, and its
      timeline. */
  datatype RoomSync = RoomSync(room: Room, capabilities: seq<CapabilityState>, prepared: bool, timeline: seq<Event>)

  /** What of a batch fails before its joined rooms are reached: nothing, the locked part of
      `receiveSync`, or a handler between that and the rooms. */
  datatype Failure = NoFailure | BeforeRetry | BeforeRooms

  /** A sync response, the clock, and the pending events that the machine can now decrypt. */
  datatype Batch = Batch(isBootstrap: bool, now: int, failure: Failure, retryable: set<Key>, rooms: seq<RoomSync>)

  datatype Path = Timeline | Late | Capability

  /** One call of `onRoomEvent`. */
  datatype Delivered = Delivered(room: Room, id: string, ts: Option<int>, path: Path)

  datatype Pending = Pending(room: Room, event: Event, firstSeen: int, attempts: nat)

  function EventKey(room: Room, id: string): Key {
    room + "\U{0}" + id
  }

  datatype Client = Client(ring: Ring, recorded: seq<Key>, notBefore: Option<int>,
                           pending: Ordered<Key, Pending>, log: seq<Delivered>)
  {
    function Deliver(room: Room, id: string, ts: Option<int>, path: Path): Client {
      this.(log := log + [Delivered(room, id, ts, path)])
    }

    /** Keep an undecryptable event for a retry; the oldest makes room when the queue is full. */
    function QueuePending(room: Room, e: Event, now: int): Client {
      if e.id == "" then this
      else
        var key := EventKey(room, e.id);
        if key in pending.values then
          var p := pending.values[key];
          this.(pending := pending.Set(key, p.(attempts := p.attempts + 1)))
        else
          var m := if |pending.order| >= MAX_PENDING_DECRYPT then pending.DropOldest() else pending;
          this.(pending := m.Set(key, Pending(room, e, now, 1)))
    }

    /** The task run in the queue: decrypt if need be, then call the handler. */
    function Dispatch(room: Room, e: Event, now: int): (Client, bool) {
      if e.dropped then (this, false)
      else if e.encrypted && !e.readable then (QueuePending(room, e, now), false)
      else
        var c := if e.encrypted && e.id != "" then this.(pending := pending.Delete(EventKey(room, e.id))) else this;
        (c.Deliver(room, e.id, e.ts, Timeline), e.throws)
    }

    predicate TooOld(e: Event) {
      notBefore.Some? && e.ts.Some? && e.ts.value < notBefore.value
    }

    function EmitTimelineEvent(room: Room, e: Event, now: int): (Client, bool) {
      if e.id == "" then
        if TooOld(e) then (this, false) else Dispatch(room, e, now)
      else
        var key := EventKey(room, e.id);
        var (r, seen) := ring.Seen(key);
        if seen then (this, false)
        else
          var c := this.(ring := r, recorded := recorded + [key]);
          if c.TooOld(e) then (c, false) else c.Dispatch(room, e, now)
    }

    function EmitAll(room: Room, es: seq<Event>, now: int): (Client, bool)
      decreases |es|
    {
      if es == [] then (this, false)
      else
        var (c, threw) := EmitTimelineEvent(room, es[0], now);
        if threw then (c, true) else c.EmitAll(room, es[1..], now)
    }

    function ShowCapabilities(room: Room, states: seq<CapabilityState>): (Client, bool)
      decreases |states|
    {
      if states == [] then (this, false)
      else
        var c := Deliver(room, states[0].id, None, Capability);
        if states[0].throws then (c, true) else c.ShowCapabilities(room, states[1..])
    }

    function JoinedRoom(r: RoomSync, isBootstrap: bool, now: int): (Client, bool) {
      var (c, threw) := ShowCapabilities(r.room, r.capabilities);
      if threw || !r.prepared then (c, true)
      else if isBootstrap then (c, false)
      else c.EmitAll(r.room, r.timeline, now)
    }

    function JoinedRooms(rooms: seq<RoomSync>, isBootstrap: bool, now: int): (Client, bool)
      decreases |rooms|
    {
      if rooms == [] then (this, false)
      else
        var (c, threw) := JoinedRoom(rooms[0], isBootstrap, now);
        if threw then (c, true) else c.JoinedRooms(rooms[1..], isBootstrap, now)
    }

    /** One entry of the retry loop. */
    function RetryOne(key: Key, retryable: set<Key>, now: int): Client {
      if key !in pending.values then this
      else
        var p := pending.values[key];
        if now - p.firstSeen > PENDING_DECRYPT_TTL_MS || p.attempts >= MAX_DECRYPT_ATTEMPTS then
          this.(pending := pending.Delete(key))
        else if key in retryable then
          this.(pending := pending.Delete(key)).Deliver(p.room, p.event.id, p.event.ts, Late)
        else
          this.(pending := pending.Set(key, p.(attempts := p.attempts + 1)))
    }

    function Retry(keys: seq<Key>, retryable: set<Key>, now: int): Client
      decreases |keys|
    {
      if keys == [] then this else RetryOne(keys[0], retryable, now).Retry(keys[1..], retryable, now)
    }

    function Noted(isBootstrap: bool, now: int): Client {
      if isBootstrap && notBefore.None? then this.(notBefore := Some(now)) else this
    }

    function Sync(b: Batch): (Client, bool) {
      var c := Noted(b.isBootstrap, b.now);
      if b.failure.BeforeRetry? then (c, true)
      else
        var d := c.Retry(c.pending.order, b.retryable, b.now);
        if b.failure.BeforeRooms? then (d, true) else d.JoinedRooms(b.rooms, b.isBootstrap, b.now)
    }

    /** `getEvent` and `getMessages` decrypt what they fetch; a failure is queued like any other. */
    function Fetch(room: Room, e: Event, now: int): Client {
      if e.dropped || !e.encrypted then this
      else if !e.readable then QueuePending(room, e, now)
      else if e.id != "" then this.(pending := pending.Delete(EventKey(room, e.id)))
      else this
    }
  }

  class MatrixClient {
    const deduper: EventDeduper
    var coldStartNotBeforeMs: Option<int>
    var pendingDecrypts: Ordered<Key, Pending>
    var calls: seq<Delivered>
    ghost var recorded: seq<Key>

    ghost predicate Valid()
      reads this, deduper
    {
      deduper.Valid()
    }

    ghost function View(): Client
      reads this, deduper
      requires Valid()
    {
      Client(deduper.View(), recorded, coldStartNotBeforeMs, pendingDecrypts, calls)
    }

    constructor ()
      ensures Valid() && fresh(deduper) && View() == INITIAL
    {
      deduper := new EventDeduper(DEDUP_CAPACITY);
      coldStartNotBeforeMs, pendingDecrypts, calls, recorded := None, Ordered(map[], []), [], [];
    }

    method QueuePendingDecrypt(room: Room, e: Event, now: int)
      requires Valid()
      modifies `pendingDecrypts
      ensures Valid() && View() == old(View()).QueuePending(room, e, now)
    {
      if e.id == "" {
        return;
      }
      var key := EventKey(room, e.id);
      if key in pendingDecrypts.values {
        var p := pendingDecrypts.values[key];
        pendingDecrypts := pendingDecrypts.Set(key, p.(attempts := p.attempts + 1));
        return;
      }
      if |pendingDecrypts.order| >= MAX_PENDING_DECRYPT {
        pendingDecrypts := pendingDecrypts.DropOldest();
      }
      pendingDecrypts := pendingDecrypts.Set(key, Pending(room, e, now, 1));
    }

    method EmitTimelineEvent(room: Room, e: Event, now: int) returns (threw: bool)
      requires Valid()
      modifies this, deduper
      ensures Valid() && (View(), threw) == old(View()).EmitTimelineEvent(room, e, now)
    {
      if e.id != "" {
        var seen := deduper.Seen(EventKey(room, e.id));
        if seen {
          return false;
        }
        recorded := recorded + [EventKey(room, e.id)];
      }
      if coldStartNotBeforeMs.Some? && e.ts.Some? && e.ts.value < coldStartNotBeforeMs.value {
        return false;
      }
      if e.dropped {
        return false;
      }
      if e.encrypted {
        if !e.readable {
          QueuePendingDecrypt(room, e, now);
          return false;
        }
        if e.id != "" {
          pendingDecrypts := pendingDecrypts.Delete(EventKey(room, e.id));
        }
      }
      calls := calls + [Delivered(room, e.id, e.ts, Timeline)];
      return e.throws;
    }

    method RetryPendingDecrypts(retryable: set<Key>, now: int)
      requires Valid()
      modifies `pendingDecrypts, `calls
      ensures Valid() && View() == old(View()).Retry(old(pendingDecrypts.order), retryable, now)
    {
      var keys := pendingDecrypts.order;
      assert keys[0..] == keys;
      for i := 0 to |keys|
        invariant Valid()
        invariant View().Retry(keys[i..], retryable, now) == old(View()).Retry(keys, retryable, now)
      {
        var key := keys[i];
        ghost var before := View();
        assert keys[i..][1..] == keys[i + 1..];
        if key in pendingDecrypts.values {
          var p := pendingDecrypts.values[key];
          if now - p.firstSeen > PENDING_DECRYPT_TTL_MS {
            pendingDecrypts := pendingDecrypts.Delete(key);
          } else if p.attempts >= MAX_DECRYPT_ATTEMPTS {
            pendingDecrypts := pendingDecrypts.Delete(key);
          } else if key in retryable {
            pendingDecrypts := pendingDecrypts.Delete(key);
            calls := calls + [Delivered(p.room, p.event.id, p.event.ts, Late)];
          } else {
            pendingDecrypts := pendingDecrypts.Set(key, p.(attempts := p.attempts + 1));
          }
        }
        assert View() == before.RetryOne(key, retryable, now);
      }
    }

    method HandleJoinedRoom(r: RoomSync, isBootstrap: bool, now: int) returns (threw: bool)
      requires Valid()
      modifies this, deduper
      ensures Valid() && (View(), threw) == old(View()).JoinedRoom(r, isBootstrap, now)
    {
      assert r.capabilities[0..] == r.capabilities;
      for i := 0 to |r.capabilities|
        invariant Valid()
        invariant View().ShowCapabilities(r.room, r.capabilities[i..])
               == old(View()).ShowCapabilities(r.room, r.capabilities)
      {
        assert r.capabilities[i..][1..] == r.capabilities[i + 1..];
        calls := calls + [Delivered(r.room, r.capabilities[i].id, None, Capability)];
        if r.capabilities[i].throws {
          return true;
        }
      }
      if !r.prepared {
        return true;
      }
      if isBootstrap {
        return false;
      }
      ghost var c := View();
      assert r.timeline[0..] == r.timeline;
      for i := 0 to |r.timeline|
        invariant Valid()
        invariant View().EmitAll(r.room, r.timeline[i..], now) == c.EmitAll(r.room, r.timeline, now)
      {
        assert r.timeline[i..][1..] == r.timeline[i + 1..];
        threw := EmitTimelineEvent(r.room, r.timeline[i], now);
        if threw {
          return;
        }
      }
      return false;
    }

    /** An event read by `getEvent` or `getMessages`; its handler calls come later, if at all. */
    method Fetch(room: Room, e: Event, now: int)
      requires Valid()
      modifies `pendingDecrypts
      ensures Valid() && View() == old(View()).Fetch(room, e, now)
    {
      if e.encrypted && !e.dropped {
        if !e.readable {
          QueuePendingDecrypt(room, e, now);
        } else if e.id != "" {
          pendingDecrypts := pendingDecrypts.Delete(EventKey(room, e.id));
        }
      }
    }

    method HandleSync(b: Batch) returns (threw: bool)
      requires Valid()
      modifies this, deduper
      ensures Valid() && (View(), threw) == old(View()).Sync(b)
    {
      if b.isBootstrap && coldStartNotBeforeMs.None? {
        coldStartNotBeforeMs := Some(b.now);
      }
      if b.failure.BeforeRetry? {
        return true;
      }
      if |pendingDecrypts.order| > 0 {
        RetryPendingDecrypts(b.retryable, b.now);
      }
      if b.failure.BeforeRooms? {
        return true;
      }
      ghost var c := View();
      assert b.rooms[0..] == b.rooms;
      for i := 0 to |b.rooms|
        invariant Valid()
        invariant View().JoinedRooms(b.rooms[i..], b.isBootstrap, b.now)
               == c.JoinedRooms(b.rooms, b.isBootstrap, b.now)
      {
        assert b.rooms[i..][1..] == b.rooms[i + 1..];
        threw := HandleJoinedRoom(b.rooms[i], b.isBootstrap, b.now);
        if threw {
          return;
        }
      }
      return false;
    }
  }

  // -------------------------------------------------------------- counting deliveries

  const INITIAL := Client(Ring(DEDUP_CAPACITY, [], {}), [], None, Ordered(map[], []), [])

  /** Handler calls for a key by the timeline and by late decryption. */
  ghost function Deliveries(log: seq<Delivered>, key: Key): nat {
    if log == [] then 0
    else Deliveries(log[..|log| - 1], key) + (if Counts(log[|log| - 1], key) then 1 else 0)
  }

  ghost predicate Counts(d: Delivered, key: Key) {
    d.path != Capability && d.id != "" && EventKey(d.room, d.id) == key
  }

  ghost function Count(keys: seq<Key>, key: Key): nat {
    if keys == [] then 0
    else Count(keys[..|keys| - 1], key) + (if keys[|keys| - 1] == key then 1 else 0)
  }

  ghost function Waiting(c: Client, key: Key): nat {
    if key in c.pending.values then 1 else 0
  }

  /** Conservation: a recorded key is delivered, waiting for its room key, or gone. */
  ghost predicate Conserved(c: Client) {
    forall key :: Deliveries(c.log, key) + Waiting(c, key) <= Count(c.recorded, key)
  }

  ghost predicate Ordinary(d: Delivered, start: Option<int>) {
    d.path != Capability && start.Some? && d.ts.Some? ==> d.ts.value >= start.value
  }

  /** The deduper follows the record, and the queue is keyed by its events. */
  ghost predicate Shape(c: Client) {
    && c.pending.Valid() && c.ring.Exact() && c.ring.capacity == DEDUP_CAPACITY
    && c.ring.window == Last(c.recorded, DEDUP_CAPACITY) && Spaced(c.recorded, DEDUP_CAPACITY)
    && (forall key :: key in c.pending.values ==>
          var p := c.pending.values[key];
          p.event.id != "" && EventKey(p.room, p.event.id) == key)
  }

  /** Nothing dated before the cut-off was delivered or waits to be. */
  ghost predicate Recent(c: Client) {
    && (forall d :: d in c.log ==> Ordinary(d, c.notBefore))
    && (forall key :: key in c.pending.values ==> !c.TooOld(c.pending.values[key].event))
  }

  lemma DeliverCounts(c: Client, room: Room, id: string, ts: Option<int>, path: Path, key: Key)
    ensures var d := Delivered(room, id, ts, path);
            Deliveries(c.Deliver(room, id, ts, path).log, key) == Deliveries(c.log, key) + (if Counts(d, key) then 1 else 0)
  {
    var d := Delivered(room, id, ts, path);
    assert (c.log + [d])[..|c.log|] == c.log;
  }

  lemma RecordCounts(recorded: seq<Key>, k: Key, key: Key)
    ensures Count(recorded + [k], key) == Count(recorded, key) + (if k == key then 1 else 0)
  {
    assert (recorded + [k])[..|recorded|] == recorded;
  }

  /** A step that keeps the balance and the recency of what it found balanced and recent. */
  ghost predicate Keeps(c: Client, t: Client) {
    Shape(t) && (Conserved(c) ==> Conserved(t)) && (Recent(c) ==> Recent(t)) && t.notBefore == c.notBefore
  }

  /** One more call for the key is covered by its records. */
  ghost predicate Covered(c: Client, key: Key) {
    Deliveries(c.log, key) + Waiting(c, key) < Count(c.recorded, key)
  }

  /** Like Keeps, for an event whose key may or may not be covered. */
  ghost predicate KeepsCovered(c: Client, t: Client, room: Room, e: Event) {
    && Shape(t) && (Recent(c) ==> Recent(t)) && t.notBefore == c.notBefore
    && (Conserved(c) && (e.id != "" ==> Covered(c, EventKey(room, e.id))) ==> Conserved(t))
  }

  lemma QueueShape(c: Client, room: Room, e: Event, now: int)
    requires Shape(c)
    ensures Shape(c.QueuePending(room, e, now))
    ensures var t := c.QueuePending(room, e, now); var key := EventKey(room, e.id);
            && (e.id == "" || key in c.pending.values ==>
                  forall k :: k in t.pending.values ==> k in c.pending.values && t.pending.values[k].event == c.pending.values[k].event)
            && (e.id != "" ==> key in t.pending.values)
            && (e.id != "" && key !in c.pending.values ==> t.pending.values[key] == Pending(room, e, now, 1))
            && forall k :: k in t.pending.values && k != key ==> k in c.pending.values && t.pending.values[k] == c.pending.values[k]
  {
    if e.id != "" {
      var key := EventKey(room, e.id);
      var t := c.QueuePending(room, e, now);
      if key in c.pending.values {
        SetValid(c.pending, key, t.pending.values[key]);
      } else {
        if |c.pending.order| >= MAX_PENDING_DECRYPT {
          DeleteValid(c.pending, c.pending.order[0]);
        }
        var m := if |c.pending.order| >= MAX_PENDING_DECRYPT then c.pending.DropOldest() else c.pending;
        SetValid(m, key, t.pending.values[key]);
      }
    }
  }

  lemma QueueInv(c: Client, room: Room, e: Event, now: int)
    requires Shape(c) && !c.TooOld(e)
    ensures KeepsCovered(c, c.QueuePending(room, e, now), room, e)
  {
    QueueShape(c, room, e, now);
    var t := c.QueuePending(room, e, now);
    if Conserved(c) && (e.id != "" ==> Covered(c, EventKey(room, e.id))) {
      forall k ensures Deliveries(t.log, k) + Waiting(t, k) <= Count(t.recorded, k) {
        assert Deliveries(c.log, k) + Waiting(c, k) <= Count(c.recorded, k);
      }
    }
  }

  /** The log and the queue after a timeline call, key by key. */
  lemma CalledInv(c: Client, room: Room, e: Event, pending: Ordered<Key, Pending>)
    requires Shape(c) && !c.TooOld(e) && pending.Valid()
    requires forall k :: k in pending.values ==> k in c.pending.values && pending.values[k] == c.pending.values[k]
    ensures KeepsCovered(c, c.(pending := pending).Deliver(room, e.id, e.ts, Timeline), room, e)
  {
    var t := c.(pending := pending).Deliver(room, e.id, e.ts, Timeline);
    if Conserved(c) && (e.id != "" ==> Covered(c, EventKey(room, e.id))) {
      forall k ensures Deliveries(t.log, k) + Waiting(t, k) <= Count(t.recorded, k) {
        DeliverCounts(c.(pending := pending), room, e.id, e.ts, Timeline, k);
        assert Deliveries(c.log, k) + Waiting(c, k) <= Count(c.recorded, k);
      }
    }
  }

  lemma QuietInv(c: Client, room: Room, e: Event)
    requires Shape(c)
    ensures KeepsCovered(c, c, room, e)
  {
  }

  /** Running the task keeps the balance, given that the key was recorded for it. */
  lemma DispatchInv(c: Client, room: Room, e: Event, now: int)
    requires Shape(c) && !c.TooOld(e)
    ensures KeepsCovered(c, c.Dispatch(room, e, now).0, room, e)
  {
    hide KeepsCovered;
    hide Client.QueuePending;
    QuietInv(c, room, e);
    if !e.dropped && e.encrypted && !e.readable {
      QueueInv(c, room, e, now);
    } else if !e.dropped {
      DeleteValid(c.pending, EventKey(room, e.id));
      CalledInv(c, room, e, c.pending);
      CalledInv(c, room, e, c.pending.Delete(EventKey(room, e.id)));
    }
  }

  lemma EmitInv(c: Client, room: Room, e: Event, now: int)
    requires Shape(c)
    ensures Keeps(c, c.EmitTimelineEvent(room, e, now).0)
  {
    if e.id == "" {
      if !c.TooOld(e) {
        DispatchInv(c, room, e, now);
      }
    } else {
      var key := EventKey(room, e.id);
      var (r, seen) := c.ring.Seen(key);
      if !seen {
        var t := c.(ring := r, recorded := c.recorded + [key]);
        RecordInv(c, key);
        if !t.TooOld(e) {
          DispatchInv(t, room, e, now);
        }
      }
    }
  }

  /** Recording a new key leaves one call for it in credit. */
  lemma RecordInv(c: Client, key: Key)
    requires Shape(c) && key !in c.ring.remembered
    ensures var t := c.(ring := c.ring.Record(key), recorded := c.recorded + [key]);
            Keeps(c, t) && (Conserved(c) ==> Covered(t, key))
  {
    SpacedStep(c.ring, c.recorded, key);
    var t := c.(ring := c.ring.Record(key), recorded := c.recorded + [key]);
    if Conserved(c) {
      forall k ensures Deliveries(t.log, k) + Waiting(t, k) <= Count(t.recorded, k) {
        RecordCounts(c.recorded, key, k);
        assert Deliveries(c.log, k) + Waiting(c, k) <= Count(c.recorded, k);
      }
      RecordCounts(c.recorded, key, key);
      assert Deliveries(c.log, key) + Waiting(c, key) <= Count(c.recorded, key);
    }
  }

  /** The log grew without a timeline delivery. */
  ghost predicate NoTimelineSince(c: Client, t: Client) {
    c.log <= t.log && forall i :: |c.log| <= i < |t.log| ==> t.log[i].path != Timeline
  }

  lemma StateShown(c: Client, room: Room, id: string)
    requires Shape(c)
    ensures Keeps(c, c.Deliver(room, id, None, Capability)) && NoTimelineSince(c, c.Deliver(room, id, None, Capability))
  {
    var t := c.Deliver(room, id, None, Capability);
    if Conserved(c) {
      forall k ensures Deliveries(t.log, k) + Waiting(t, k) <= Count(t.recorded, k) {
        DeliverCounts(c, room, id, None, Capability, k);
        assert Deliveries(c.log, k) + Waiting(c, k) <= Count(c.recorded, k);
      }
    }
  }

  lemma Forgotten(c: Client, key: Key)
    requires Shape(c)
    ensures Keeps(c, c.(pending := c.pending.Delete(key))) && NoTimelineSince(c, c.(pending := c.pending.Delete(key)))
  {
    DeleteValid(c.pending, key);
    var t := c.(pending := c.pending.Delete(key));
    if Conserved(c) {
      forall k ensures Deliveries(t.log, k) + Waiting(t, k) <= Count(t.recorded, k) {
        assert Deliveries(c.log, k) + Waiting(c, k) <= Count(c.recorded, k);
      }
    }
  }

  lemma Recovered(c: Client, key: Key)
    requires Shape(c) && key in c.pending.values
    ensures var p := c.pending.values[key];
            var t := c.(pending := c.pending.Delete(key)).Deliver(p.room, p.event.id, p.event.ts, Late);
            Keeps(c, t) && NoTimelineSince(c, t)
  {
    var p := c.pending.values[key];
    DeleteValid(c.pending, key);
    var t := c.(pending := c.pending.Delete(key)).Deliver(p.room, p.event.id, p.event.ts, Late);
    if Conserved(c) {
      forall k ensures Deliveries(t.log, k) + Waiting(t, k) <= Count(t.recorded, k) {
        DeliverCounts(c, p.room, p.event.id, p.event.ts, Late, k);
        assert Deliveries(c.log, k) + Waiting(c, k) <= Count(c.recorded, k);
      }
    }
  }

  lemma StillWaiting(c: Client, key: Key)
    requires Shape(c) && key in c.pending.values
    ensures var p := c.pending.values[key];
            var t := c.(pending := c.pending.Set(key, p.(attempts := p.attempts + 1)));
            Keeps(c, t) && NoTimelineSince(c, t)
  {
    var p := c.pending.values[key];
    SetValid(c.pending, key, p.(attempts := p.attempts + 1));
    var t := c.(pending := c.pending.Set(key, p.(attempts := p.attempts + 1)));
    if Conserved(c) {
      forall k ensures Deliveries(t.log, k) + Waiting(t, k) <= Count(t.recorded, k) {
        assert Deliveries(c.log, k) + Waiting(c, k) <= Count(c.recorded, k);
      }
    }
  }

  lemma Unmoved(c: Client)
    requires Shape(c)
    ensures Keeps(c, c) && NoTimelineSince(c, c)
  {
  }

  lemma RetryOneInv(c: Client, key: Key, retryable: set<Key>, now: int)
    requires Shape(c)
    ensures Keeps(c, c.RetryOne(key, retryable, now)) && NoTimelineSince(c, c.RetryOne(key, retryable, now))
  {
    hide Conserved;
    hide Recent;
    hide Shape;
    Unmoved(c);
    Forgotten(c, key);
    if key in c.pending.values {
      Recovered(c, key);
      StillWaiting(c, key);
    }
  }

  lemma NotedInv(c: Client, isBootstrap: bool, now: int)
    ensures Shape(c) ==> Shape(c.Noted(isBootstrap, now))
    ensures Conserved(c) ==> Conserved(c.Noted(isBootstrap, now))
  {
    var t := c.Noted(isBootstrap, now);
    if Conserved(c) {
      forall k ensures Deliveries(t.log, k) + Waiting(t, k) <= Count(t.recorded, k) {
        assert Deliveries(c.log, k) + Waiting(c, k) <= Count(c.recorded, k);
      }
    }
  }

  // ------------------------------------------------------------------- fetched events

  /** The fetch puts an event into the queue that was not there. */
  ghost predicate Queues(c: Client, room: Room, e: Event) {
    e.encrypted && !e.dropped && !e.readable && e.id != "" && EventKey(room, e.id) !in c.pending.values
  }

  /** It does so for an event that has no record left to be delivered for. */
  ghost predicate Overdraws(c: Client, room: Room, e: Event) {
    Queues(c, room, e) && Deliveries(c.log, EventKey(room, e.id)) >= Count(c.recorded, EventKey(room, e.id))
  }

  ghost predicate QueuesOld(c: Client, room: Room, e: Event) {
    Queues(c, room, e) && c.TooOld(e)
  }

  lemma QueuedBalance(c: Client, room: Room, e: Event, now: int)
    requires Shape(c) && Queues(c, room, e) && Conserved(c)
    ensures Conserved(c.QueuePending(room, e, now)) <==> !Overdraws(c, room, e)
  {
    hide Shape;
    hide Client.QueuePending;
    var t, key := c.QueuePending(room, e, now), EventKey(room, e.id);
    QueueShape(c, room, e, now);
    QueueLog(c, room, e, now);
    if Overdraws(c, room, e) {
      assert Deliveries(t.log, key) + Waiting(t, key) > Count(t.recorded, key);
    } else {
      forall k ensures Deliveries(t.log, k) + Waiting(t, k) <= Count(t.recorded, k) {
        assert Deliveries(c.log, k) + Waiting(c, k) <= Count(c.recorded, k);
      }
    }
  }

  lemma QueuedRecency(c: Client, room: Room, e: Event, now: int)
    requires Shape(c) && Queues(c, room, e) && Recent(c)
    ensures Recent(c.QueuePending(room, e, now)) <==> !c.TooOld(e)
  {
    hide Shape;
    hide Client.QueuePending;
    QueueShape(c, room, e, now);
    QueueLog(c, room, e, now);
    assert EventKey(room, e.id) in c.QueuePending(room, e, now).pending.values;
  }

  lemma QueueLog(c: Client, room: Room, e: Event, now: int)
    ensures var t := c.QueuePending(room, e, now);
            t.log == c.log && t.recorded == c.recorded && t.notBefore == c.notBefore && t.ring == c.ring
  {
  }

  /** A fetch keeps the balance exactly when it does not overdraw, and the recency exactly when it does
      not queue an event from before the cut-off. */
  lemma FetchKeepsExactly(c: Client, room: Room, e: Event, now: int)
    requires Shape(c)
    ensures Shape(c.Fetch(room, e, now)) && c.Fetch(room, e, now).notBefore == c.notBefore
    ensures Conserved(c) ==> (Conserved(c.Fetch(room, e, now)) <==> !Overdraws(c, room, e))
    ensures Recent(c) ==> (Recent(c.Fetch(room, e, now)) <==> !QueuesOld(c, room, e))
  {
    hide Shape;
    hide Conserved;
    hide Recent;
    var key := EventKey(room, e.id);
    Unmoved(c);
    Forgotten(c, key);
    if Queues(c, room, e) {
      QueueShape(c, room, e, now);
      QueueLog(c, room, e, now);
      if Conserved(c) { QueuedBalance(c, room, e, now); }
      if Recent(c) { QueuedRecency(c, room, e, now); }
    } else if key in c.pending.values {
      StillWaiting(c, key);
    }
  }

  // ------------------------------------------------------------------- moves and batches

  /** What a client does between two awaits: a batch notes its instant, retries a waiting event, shows a
      capability state or takes up a timeline event; anything may be fetched in between. */
  datatype Move =
    | Opened(isBootstrap: bool, now: int)
    | Retried(key: Key, retryable: set<Key>, now: int)
    | Showed(room: Room, id: string)
    | Emitted(room: Room, event: Event, now: int)
    | Fetched(room: Room, event: Event, now: int)

  ghost function Made(c: Client, m: Move): Client {
    match m
    case Opened(isBootstrap, now) => c.Noted(isBootstrap, now)
    case Retried(key, retryable, now) => c.RetryOne(key, retryable, now)
    case Showed(room, id) => c.Deliver(room, id, None, Capability)
    case Emitted(room, e, now) => c.EmitTimelineEvent(room, e, now).0
    case Fetched(room, e, now) => c.Fetch(room, e, now)
  }

  ghost function Play(c: Client, moves: seq<Move>): Client
    decreases |moves|
  {
    if moves == [] then c else Play(Made(c, moves[0]), moves[1..])
  }

  lemma {:induction false} PlayJoin(c: Client, a: seq<Move>, b: seq<Move>)
    ensures Play(c, a + b) == Play(Play(c, a), b)
    decreases |a|
  {
    if a == [] {
      assert a + b == b;
    } else {
      assert (a + b)[1..] == a[1..] + b;
      PlayJoin(Made(c, a[0]), a[1..], b);
    }
  }

  lemma PlayOne(c: Client, m: Move, rest: seq<Move>)
    ensures Play(c, [m] + rest) == Play(Made(c, m), rest)
  {
    assert ([m] + rest)[1..] == rest;
  }

  /** Moves that a batch makes itself; a bootstrap batch takes up no timeline event. */
  ghost predicate Own(moves: seq<Move>, isBootstrap: bool) {
    forall m :: m in moves ==> !m.Fetched? && (isBootstrap ==> !m.Emitted?)
  }

  lemma {:induction false} RetryIsPlay(c: Client, keys: seq<Key>, retryable: set<Key>, now: int, isBootstrap: bool)
    returns (moves: seq<Move>)
    ensures Play(c, moves) == c.Retry(keys, retryable, now) && Own(moves, isBootstrap)
    decreases |keys|
  {
    moves := [];
    if keys != [] {
      var rest := RetryIsPlay(c.RetryOne(keys[0], retryable, now), keys[1..], retryable, now, isBootstrap);
      PlayOne(c, Retried(keys[0], retryable, now), rest);
      moves := [Retried(keys[0], retryable, now)] + rest;
    }
  }

  lemma {:induction false} StatesArePlay(c: Client, room: Room, states: seq<CapabilityState>, isBootstrap: bool)
    returns (moves: seq<Move>)
    ensures Play(c, moves) == c.ShowCapabilities(room, states).0 && Own(moves, isBootstrap)
    decreases |states|
  {
    moves := [];
    if states != [] {
      var rest := [];
      if !states[0].throws {
        rest := StatesArePlay(c.Deliver(room, states[0].id, None, Capability), room, states[1..], isBootstrap);
      }
      PlayOne(c, Showed(room, states[0].id), rest);
      moves := [Showed(room, states[0].id)] + rest;
    }
  }

  lemma {:induction false} TimelineIsPlay(c: Client, room: Room, es: seq<Event>, now: int) returns (moves: seq<Move>)
    ensures Play(c, moves) == c.EmitAll(room, es, now).0 && Own(moves, false)
    decreases |es|
  {
    hide Client.EmitTimelineEvent;
    moves := [];
    if es != [] {
      var (t, threw) := c.EmitTimelineEvent(room, es[0], now);
      var rest := [];
      if !threw {
        rest := TimelineIsPlay(t, room, es[1..], now);
      }
      PlayOne(c, Emitted(room, es[0], now), rest);
      moves := [Emitted(room, es[0], now)] + rest;
    }
  }

  lemma {:induction false} RoomsArePlay(c: Client, rooms: seq<RoomSync>, isBootstrap: bool, now: int)
    returns (moves: seq<Move>)
    ensures Play(c, moves) == c.JoinedRooms(rooms, isBootstrap, now).0 && Own(moves, isBootstrap)
    decreases |rooms|
  {
    moves := [];
    if rooms != [] {
      var r := rooms[0];
      var (d, stopped) := c.ShowCapabilities(r.room, r.capabilities);
      moves := StatesArePlay(c, r.room, r.capabilities, isBootstrap);
      if !stopped && r.prepared && !isBootstrap {
        var timeline := TimelineIsPlay(d, r.room, r.timeline, now);
        PlayJoin(c, moves, timeline);
        moves := moves + timeline;
      }
      var (t, threw) := c.JoinedRoom(r, isBootstrap, now);
      if !threw {
        var rest := RoomsArePlay(t, rooms[1..], isBootstrap, now);
        PlayJoin(c, moves, rest);
        moves := moves + rest;
      }
    }
  }

  /** A batch is a series of moves without fetches. */
  lemma SyncIsPlay(c: Client, b: Batch) returns (moves: seq<Move>)
    ensures Play(c, [Opened(b.isBootstrap, b.now)] + moves) == c.Sync(b).0
    ensures Own(moves, b.isBootstrap)
  {
    hide Client.JoinedRooms;
    hide Client.Retry;
    var d := c.Noted(b.isBootstrap, b.now);
    moves := [];
    if !b.failure.BeforeRetry? {
      moves := RetryIsPlay(d, d.pending.order, b.retryable, b.now, b.isBootstrap);
      if !b.failure.BeforeRooms? {
        var rest := RoomsArePlay(Play(d, moves), b.rooms, b.isBootstrap, b.now);
        PlayJoin(d, moves, rest);
        moves := moves + rest;
      }
    }
    PlayOne(c, Opened(b.isBootstrap, b.now), moves);
  }

  lemma MoveInv(c: Client, m: Move)
    requires Shape(c)
    ensures Shape(Made(c, m))
    ensures Conserved(c) ==> (Conserved(Made(c, m)) <==> !(m.Fetched? && Overdraws(c, m.room, m.event)))
    ensures Recent(c) && c.notBefore.Some? ==>
              && Made(c, m).notBefore == c.notBefore
              && (Recent(Made(c, m)) <==> !(m.Fetched? && QueuesOld(c, m.room, m.event)))
    ensures !m.Emitted? ==> NoTimelineSince(c, Made(c, m))
  {
    hide Shape;
    hide Conserved;
    hide Recent;
    match m
    case Opened(isBootstrap, now) => NotedInv(c, isBootstrap, now);
    case Retried(key, retryable, now) => RetryOneInv(c, key, retryable, now);
    case Showed(room, id) => StateShown(c, room, id);
    case Emitted(room, e, now) => EmitInv(c, room, e, now);
    case Fetched(room, e, now) =>
      FetchKeepsExactly(c, room, e, now);
      QueueLog(c, room, e, now);
  }

  lemma {:induction false} PlayInv(c: Client, moves: seq<Move>)
    requires Shape(c) && Own(moves, false)
    ensures Shape(Play(c, moves))
    ensures Conserved(c) ==> Conserved(Play(c, moves))
    ensures Recent(c) && c.notBefore.Some? ==> Recent(Play(c, moves)) && Play(c, moves).notBefore == c.notBefore
    ensures Own(moves, true) ==> NoTimelineSince(c, Play(c, moves))
    decreases |moves|
  {
    hide Shape;
    hide Conserved;
    hide Recent;
    if moves != [] {
      MoveInv(c, moves[0]);
      PlayInv(Made(c, moves[0]), moves[1..]);
    }
  }

  lemma SyncInv(c: Client, b: Batch)
    requires Shape(c)
    ensures Shape(c.Sync(b).0)
    ensures Conserved(c) ==> Conserved(c.Sync(b).0)
    ensures Recent(c) && c.notBefore.Some? ==> Recent(c.Sync(b).0) && c.Sync(b).0.notBefore == c.notBefore
    ensures b.isBootstrap ==> NoTimelineSince(c, c.Sync(b).0)
  {
    hide Shape;
    hide Conserved;
    hide Recent;
    hide Client.Sync;
    hide Play;
    var moves := SyncIsPlay(c, b);
    PlayInv(c, [Opened(b.isBootstrap, b.now)] + moves);
  }

  /** The client once the deduper has let an event pass. */
  ghost function Taken(c: Client, key: Key): Client {
    c.(ring := c.ring.Record(key), recorded := c.recorded + [key])
  }

  lemma FetchTaken(c: Client, key: Key, room: Room, e: Event, now: int)
    ensures Taken(c, key).Fetch(room, e, now) == Taken(c.Fetch(room, e, now), key)
  {
    hide Ring.Record;
  }

  /** A fetch that falls between the deduper and the handler of an event leaves what the same fetch just
      before that event leaves. */
  lemma FetchDuringEvent(c: Client, room: Room, e: Event, now: int, other: Room, fetched: Event, at: int)
    requires e.id != "" && EventKey(room, e.id) !in c.ring.remembered && !c.TooOld(e)
    ensures Taken(c, EventKey(room, e.id)).Fetch(other, fetched, at).Dispatch(room, e, now)
            == c.Fetch(other, fetched, at).EmitTimelineEvent(room, e, now)
  {
    var d, key := c.Fetch(other, fetched, at), EventKey(room, e.id);
    QueueLog(c, other, fetched, at);
    FetchTaken(c, key, other, fetched, at);
    assert d.ring == c.ring && d.notBefore == c.notBefore;
    hide Client.Fetch;
    hide Client.Dispatch;
    assert d.EmitTimelineEvent(room, e, now) == Taken(d, key).Dispatch(room, e, now);
  }

  // ------------------------------------------------------------------- what a fetch can break

  /** Retrying another event without its key leaves this one waiting. */
  lemma OtherRetried(c: Client, other: Key, key: Key, now: int)
    requires Shape(c) && other != key && key in c.pending.values
    ensures var d := c.RetryOne(other, {key}, now);
            && Shape(d) && key in d.pending.values && d.pending.values[key] == c.pending.values[key]
            && d.log == c.log && d.recorded == c.recorded && d.notBefore == c.notBefore && d.ring == c.ring
  {
    hide Shape;
    Forgotten(c, other);
    if other in c.pending.values {
      StillWaiting(c, other);
    }
  }

  lemma ThisRetried(c: Client, key: Key, now: int)
    requires key in c.pending.values && now - c.pending.values[key].firstSeen <= PENDING_DECRYPT_TTL_MS
    requires c.pending.values[key].attempts < MAX_DECRYPT_ATTEMPTS
    requires var p := c.pending.values[key]; p.event.id != "" && EventKey(p.room, p.event.id) == key
    ensures var d, p := c.RetryOne(key, {key}, now), c.pending.values[key];
            && Deliveries(d.log, key) == Deliveries(c.log, key) + 1
            && d.recorded == c.recorded && d.notBefore == c.notBefore && d.ring == c.ring
            && Delivered(p.room, p.event.id, p.event.ts, Late) in d.log
  {
    var p := c.pending.values[key];
    DeliverCounts(c, p.room, p.event.id, p.event.ts, Late, key);
  }

  /** A waiting event whose key has come is delivered by the next retry. */
  lemma {:induction false} RetryDelivers(c: Client, keys: seq<Key>, key: Key, now: int)
    requires Shape(c) && key in keys && key in c.pending.values && Distinct(keys)
    requires now - c.pending.values[key].firstSeen <= PENDING_DECRYPT_TTL_MS
    requires c.pending.values[key].attempts < MAX_DECRYPT_ATTEMPTS
    ensures var t := c.Retry(keys, {key}, now); var p := c.pending.values[key];
            && Deliveries(t.log, key) == Deliveries(c.log, key) + 1
            && t.recorded == c.recorded && t.notBefore == c.notBefore && t.ring == c.ring
            && Delivered(p.room, p.event.id, p.event.ts, Late) in t.log
    decreases |keys|
  {
    if keys[0] == key {
      ThisRetried(c, key, now);
      assert key !in keys[1..];
      RetryLeaves(c.RetryOne(key, {key}, now), keys[1..], key, now);
    } else {
      OtherRetried(c, keys[0], key, now);
      RetryDelivers(c.RetryOne(keys[0], {key}, now), keys[1..], key, now);
    }
  }

  lemma {:induction false} RetryLeaves(c: Client, keys: seq<Key>, key: Key, now: int)
    requires key !in keys
    ensures var t := c.Retry(keys, {key}, now);
            t.log == c.log && t.recorded == c.recorded && t.notBefore == c.notBefore && t.ring == c.ring
    decreases |keys|
  {
    if keys != [] {
      RetryLeaves(c.RetryOne(keys[0], {key}, now), keys[1..], key, now);
    }
  }

  /** The batch in which nothing happens but that one room key has come. */
  ghost function KeyCame(key: Key, now: int): Batch {
    Batch(false, now, NoFailure, {key}, [])
  }

  lemma QueuedIsDelivered(c: Client, room: Room, e: Event, now: int)
    requires Shape(c) && Queues(c, room, e)
    ensures var key := EventKey(room, e.id); var t := c.Fetch(room, e, now).Sync(KeyCame(key, now)).0;
            && Deliveries(t.log, key) == Deliveries(c.log, key) + 1
            && t.recorded == c.recorded && t.notBefore == c.notBefore
            && Delivered(room, e.id, e.ts, Late) in t.log
  {
    var key, d := EventKey(room, e.id), c.Fetch(room, e, now);
    QueueShape(c, room, e, now);
    assert key in d.pending.order;
    RetryDelivers(d, d.pending.order, key, now);
  }

  /** Whatever batch follows a fetch, no event has more calls than records, exactly when the fetch does
      not overdraw. */
  lemma FetchBreaksCountExactly(c: Client, room: Room, e: Event, now: int)
    requires Shape(c) && Conserved(c)
    ensures (forall b: Batch, key: Key {:trigger Deliveries(c.Fetch(room, e, now).Sync(b).0.log, key)} ::
               Deliveries(c.Fetch(room, e, now).Sync(b).0.log, key) <= Count(c.Fetch(room, e, now).Sync(b).0.recorded, key))
            <==> !Overdraws(c, room, e)
  {
    var d := c.Fetch(room, e, now);
    FetchKeepsExactly(c, room, e, now);
    if Overdraws(c, room, e) {
      QueuedIsDelivered(c, room, e, now);
      var key := EventKey(room, e.id);
      var b := KeyCame(key, now);
      assert Deliveries(c.Fetch(room, e, now).Sync(b).0.log, key) > Count(c.Fetch(room, e, now).Sync(b).0.recorded, key);
    } else {
      forall b: Batch, key: Key ensures Deliveries(d.Sync(b).0.log, key) <= Count(d.Sync(b).0.recorded, key) {
        SyncInv(d, b);
        assert Deliveries(d.Sync(b).0.log, key) + Waiting(d.Sync(b).0, key) <= Count(d.Sync(b).0.recorded, key);
      }
    }
  }

  ghost predicate AllOrdinary(c: Client) {
    forall d :: d in c.log ==> Ordinary(d, c.notBefore)
  }

  /** Whatever batch follows a fetch, nothing from before the cut-off is delivered, exactly when the fetch
      does not queue such an event. */
  lemma FetchBreaksCutOffExactly(c: Client, room: Room, e: Event, now: int)
    requires Shape(c) && Recent(c) && c.notBefore.Some?
    ensures (forall b: Batch :: AllOrdinary(c.Fetch(room, e, now).Sync(b).0)) <==> !QueuesOld(c, room, e)
  {
    var d := c.Fetch(room, e, now);
    FetchKeepsExactly(c, room, e, now);
    if QueuesOld(c, room, e) {
      QueuedIsDelivered(c, room, e, now);
      var t := d.Sync(KeyCame(EventKey(room, e.id), now)).0;
      assert !Ordinary(Delivered(room, e.id, e.ts, Late), t.notBefore);
      assert !AllOrdinary(t);
    } else {
      forall b: Batch ensures AllOrdinary(d.Sync(b).0) {
        SyncInv(d, b);
      }
    }
  }

  // ------------------------------------------------------------------- whole sessions

  ghost predicate AlwaysConserved(c: Client, moves: seq<Move>)
    decreases |moves|
  {
    Conserved(c) && (moves == [] || AlwaysConserved(Made(c, moves[0]), moves[1..]))
  }

  ghost predicate SomeOverdraws(c: Client, moves: seq<Move>)
    decreases |moves|
  {
    moves != [] && ((moves[0].Fetched? && Overdraws(c, moves[0].room, moves[0].event))
                    || SomeOverdraws(Made(c, moves[0]), moves[1..]))
  }

  ghost predicate AlwaysRecent(c: Client, moves: seq<Move>)
    decreases |moves|
  {
    Recent(c) && (moves == [] || AlwaysRecent(Made(c, moves[0]), moves[1..]))
  }

  ghost predicate SomeQueuesOld(c: Client, moves: seq<Move>)
    decreases |moves|
  {
    moves != [] && ((moves[0].Fetched? && QueuesOld(c, moves[0].room, moves[0].event))
                    || SomeQueuesOld(Made(c, moves[0]), moves[1..]))
  }

  lemma {:induction false} SessionShape(c: Client, moves: seq<Move>)
    requires Shape(c)
    ensures Shape(Play(c, moves))
    ensures AlwaysConserved(c, moves) ==> Conserved(Play(c, moves))
    ensures AlwaysRecent(c, moves) ==> Recent(Play(c, moves))
    decreases |moves|
  {
    hide Shape;
    hide Conserved;
    hide Recent;
    if moves != [] {
      MoveInv(c, moves[0]);
      SessionShape(Made(c, moves[0]), moves[1..]);
    }
  }

  /** Over every session, with fetches at any point of it: calls and waiting events are covered by records
      all along, exactly when no fetch overdraws. */
  lemma {:induction false} BalancedExactly(c: Client, moves: seq<Move>)
    requires Shape(c) && Conserved(c)
    ensures AlwaysConserved(c, moves) <==> !SomeOverdraws(c, moves)
    decreases |moves|
  {
    hide Shape;
    hide Conserved;
    hide Overdraws;
    if moves != [] {
      MoveInv(c, moves[0]);
      if Conserved(Made(c, moves[0])) {
        BalancedExactly(Made(c, moves[0]), moves[1..]);
      }
    }
  }

  /** Once the cut-off is set: nothing before it is delivered or waits all along, exactly when no fetch
      queues an event from before it. */
  lemma {:induction false} RecentExactly(c: Client, moves: seq<Move>)
    requires Shape(c) && Recent(c) && c.notBefore.Some?
    ensures AlwaysRecent(c, moves) <==> !SomeQueuesOld(c, moves)
    ensures !SomeQueuesOld(c, moves) ==> Play(c, moves).notBefore == c.notBefore
    decreases |moves|
  {
    hide Shape;
    hide Recent;
    hide QueuesOld;
    if moves != [] {
      MoveInv(c, moves[0]);
      if Recent(Made(c, moves[0])) {
        RecentExactly(Made(c, moves[0]), moves[1..]);
      }
    }
  }

  /** After a bootstrap start an event from before it is fetched without its key, and the key comes: the
      handler gets the old event. */
  lemma OldEventIsDelivered(first: Batch, room: Room, e: Event, now: int)
    requires first.isBootstrap && first.failure == BeforeRetry && e.ts.Some? && e.ts.value < first.now
    requires e.encrypted && !e.readable && !e.dropped && e.id != ""
    ensures var c := INITIAL.Sync(first).0.Fetch(room, e, now);
            && c.TooOld(e)
            && Delivered(room, e.id, e.ts, Late) in c.Sync(KeyCame(EventKey(room, e.id), now)).0.log
  {
    var c := INITIAL.Sync(first).0;
    SyncInv(INITIAL, first);
    QueuedIsDelivered(c, room, e, now);
    QueueLog(c, room, e, now);
  }

  /** An event is fetched without its key before its batch arrives together with the key: the handler gets
      it by late decryption and again from the timeline. */
  lemma FetchedFirstIsDeliveredTwice(room: Room, e: Event, now: int)
    requires e.encrypted && !e.readable && !e.dropped && e.id != ""
    ensures var key := EventKey(room, e.id);
            var b := Batch(false, now, NoFailure, {key}, [RoomSync(room, [], true, [e.(readable := true)])]);
            Deliveries(INITIAL.Fetch(room, e, now).Sync(b).0.log, key) == 2
  {
    var key := EventKey(room, e.id);
    var d := INITIAL.Fetch(room, e, now);
    QueueShape(INITIAL, room, e, now);
    assert key in d.pending.order;
    RetryDelivers(d, d.pending.order, key, now);
    OneTimelineEvent(d.Retry(d.pending.order, {key}, now), room, e.(readable := true), now);
    assert Deliveries([], key) == 0;
  }

  lemma OneTimelineEvent(c: Client, room: Room, e: Event, now: int)
    requires e.encrypted && e.readable && !e.dropped && e.id != "" && c.notBefore.None?
    requires EventKey(room, e.id) !in c.ring.remembered
    ensures var key := EventKey(room, e.id);
            Deliveries(c.JoinedRooms([RoomSync(room, [], true, [e])], false, now).0.log, key) == Deliveries(c.log, key) + 1
  {
    var key, r := EventKey(room, e.id), RoomSync(room, [], true, [e]);
    var t := c.EmitTimelineEvent(room, e, now).0;
    var u := c.(ring := c.ring.Record(key), recorded := c.recorded + [key], pending := c.pending.Delete(key));
    assert t == u.Deliver(room, e.id, e.ts, Timeline);
    DeliverCounts(u, room, e.id, e.ts, Timeline, key);
    hide Client.EmitTimelineEvent;
    assert [e][1..] == [] && [r][1..] == [];
    assert c.EmitAll(room, [e], now).0 == t;
    assert c.JoinedRoom(r, false, now) == c.EmitAll(room, [e], now);
    assert c.JoinedRooms([r], false, now).0 == t;
  }

  /** At any point of any session a bootstrap batch delivers nothing from its timelines. */
  lemma BootstrapIsSilent(moves: seq<Move>, b: Batch)
    requires b.isBootstrap
    ensures var c := Play(INITIAL, moves);
            NoTimelineSince(c, c.Sync(b).0)
  {
    SessionShape(INITIAL, moves);
    SyncInv(Play(INITIAL, moves), b);
  }

  /** In a session that begins with a bootstrap sync, nothing dated before the instant of that sync is
      delivered from a timeline or by late decryption, if no fetch queues an event from before it. */
  lemma NothingBeforeColdStart(now: int, rest: seq<Move>)
    requires !SomeQueuesOld(INITIAL, [Opened(true, now)] + rest)
    ensures forall d :: d in Play(INITIAL, [Opened(true, now)] + rest).log && d.path != Capability && d.ts.Some? ==>
              d.ts.value >= now
  {
    var c := INITIAL.Noted(true, now);
    assert Shape(c) && Recent(c) && c.notBefore == Some(now);
    PlayOne(INITIAL, Opened(true, now), rest);
    assert ([Opened(true, now)] + rest)[1..] == rest;
    RecentExactly(c, rest);
    SessionShape(c, rest);
  }

  lemma {:induction false} CountOfSpaced(keys: seq<Key>, key: Key)
    requires Spaced(keys, DEDUP_CAPACITY)
    ensures Count(keys, key) >= 1 ==>
              (exists i :: 0 <= i < |keys| && keys[i] == key
                        && Count(keys, key) * (DEDUP_CAPACITY + 1) <= i + 1 + DEDUP_CAPACITY)
    decreases |keys|
  {
    if keys != [] {
      var front, last := keys[..|keys| - 1], |keys| - 1;
      CountOfSpaced(front, key);
      if Count(front, key) >= 1 {
        var i :| 0 <= i < |front| && front[i] == key
                 && Count(front, key) * (DEDUP_CAPACITY + 1) <= i + 1 + DEDUP_CAPACITY;
        assert keys[i] == key;
        if keys[last] == key {
          assert last - i > DEDUP_CAPACITY;
          assert Count(keys, key) * (DEDUP_CAPACITY + 1) <= last + 1 + DEDUP_CAPACITY;
        }
      } else if keys[last] == key {
        assert Count(keys, key) * (DEDUP_CAPACITY + 1) <= last + 1 + DEDUP_CAPACITY;
      }
    }
  }

  /** Over every session in which no fetch overdraws, the calls for one event by timeline and late
      decryption together number at most one per 2049 newly recorded keys, rounded up; at most one while
      no more than 2049 keys were recorded. */
  lemma AtMostOncePerWindow(moves: seq<Move>, key: Key)
    requires !SomeOverdraws(INITIAL, moves)
    ensures var t := Play(INITIAL, moves);
            && Deliveries(t.log, key) * (DEDUP_CAPACITY + 1) <= |t.recorded| + DEDUP_CAPACITY
            && (|t.recorded| <= DEDUP_CAPACITY + 1 ==> Deliveries(t.log, key) <= 1)
  {
    BalancedExactly(INITIAL, moves);
    SessionShape(INITIAL, moves);
    var t := Play(INITIAL, moves);
    CountOfSpaced(t.recorded, key);
    assert Deliveries(t.log, key) + Waiting(t, key) <= Count(t.recorded, key);
  }

  // ------------------------------------------------------------------- capability state

  /** A session by whole batches. */
  datatype Step = Synced(batch: Batch) | Read(room: Room, event: Event, now: int)

  ghost function After(c: Client, step: Step): Client {
    match step
    case Synced(b) => c.Sync(b).0
    case Read(room, e, now) => c.Fetch(room, e, now)
  }

  ghost function Session(c: Client, steps: seq<Step>): Client
    decreases |steps|
  {
    if steps == [] then c else Session(After(c, steps[0]), steps[1..])
  }

  /** Handler calls for one capability state event. */
  ghost function Shown(log: seq<Delivered>, room: Room, id: string): nat {
    if log == [] then 0
    else Shown(log[..|log| - 1], room, id)
         + (var d := log[|log| - 1]; if d.path == Capability && d.room == room && d.id == id then 1 else 0)
  }

  /** The states of a room that are reached: up to the first on which the handler throws. */
  ghost function UpToThrow(states: seq<CapabilityState>): seq<CapabilityState> {
    if states == [] then [] else [states[0]] + if states[0].throws then [] else UpToThrow(states[1..])
  }

  ghost function Named(states: seq<CapabilityState>, id: string): nat {
    if states == [] then 0 else (if states[0].id == id then 1 else 0) + Named(states[1..], id)
  }

  ghost function NamedInRoom(r: RoomSync, room: Room, id: string): nat {
    if r.room == room then Named(UpToThrow(r.capabilities), id) else 0
  }

  ghost function NamedInRooms(rooms: seq<RoomSync>, room: Room, id: string): nat {
    if rooms == [] then 0 else NamedInRoom(rooms[0], room, id) + NamedInRooms(rooms[1..], room, id)
  }

  /** The joined rooms of a batch that are reached: up to the first that throws. */
  ghost function Reached(c: Client, rooms: seq<RoomSync>, isBootstrap: bool, now: int): (r: seq<RoomSync>)
    ensures r <= rooms && (!c.JoinedRooms(rooms, isBootstrap, now).1 ==> r == rooms)
    decreases |rooms|
  {
    if rooms == [] then []
    else
      var (t, threw) := c.JoinedRoom(rooms[0], isBootstrap, now);
      [rooms[0]] + if threw then [] else Reached(t, rooms[1..], isBootstrap, now)
  }

  ghost function ReachedIn(c: Client, b: Batch): seq<RoomSync> {
    if b.failure != NoFailure then []
    else Reached(c.Noted(b.isBootstrap, b.now).Retry(c.pending.order, b.retryable, b.now), b.rooms, b.isBootstrap, b.now)
  }

  /** How often the event occurs in the rooms that the batches of a session reach. */
  ghost function Occurrences(c: Client, steps: seq<Step>, room: Room, id: string): nat
    decreases |steps|
  {
    if steps == [] then 0
    else (if steps[0].Synced? then NamedInRooms(ReachedIn(c, steps[0].batch), room, id) else 0)
         + Occurrences(After(c, steps[0]), steps[1..], room, id)
  }

  lemma StepShows(c: Client, step: Step, room: Room, id: string)
    ensures Shown(After(c, step).log, room, id)
            == Shown(c.log, room, id) + if step.Synced? then NamedInRooms(ReachedIn(c, step.batch), room, id) else 0
  {
    hide Shown;
    hide NamedInRooms;
    hide Reached;
    match step
    case Synced(b) =>
      var d := c.Noted(b.isBootstrap, b.now);
      NothingNamed(room, id);
      RetryShowsNone(d, c.pending.order, b.retryable, b.now, room, id);
      RoomsShown(d.Retry(c.pending.order, b.retryable, b.now), b.rooms, b.isBootstrap, b.now, room, id);
    case Read(_, _, _) =>
  }

  lemma NothingNamed(room: Room, id: string)
    ensures NamedInRooms([], room, id) == 0
  {
  }

  lemma ShownStep(log: seq<Delivered>, d: Delivered, room: Room, id: string)
    ensures Shown(log + [d], room, id)
            == Shown(log, room, id) + if d.path == Capability && d.room == room && d.id == id then 1 else 0
  {
    assert (log + [d])[..|log|] == log;
  }

  lemma {:induction false} StatesShown(c: Client, r: Room, states: seq<CapabilityState>, room: Room, id: string)
    ensures Shown(c.ShowCapabilities(r, states).0.log, room, id)
            == Shown(c.log, room, id) + if r == room then Named(UpToThrow(states), id) else 0
    decreases |states|
  {
    if states != [] {
      var d := c.Deliver(r, states[0].id, None, Capability);
      ShownStep(c.log, Delivered(r, states[0].id, None, Capability), room, id);
      if states[0].throws {
        assert UpToThrow(states) == [states[0]] && [states[0]][1..] == [];
      } else {
        assert UpToThrow(states)[1..] == UpToThrow(states[1..]);
        StatesShown(d, r, states[1..], room, id);
      }
    }
  }

  lemma EmitOneShowsNone(c: Client, r: Room, e: Event, now: int, room: Room, id: string)
    ensures Shown(c.EmitTimelineEvent(r, e, now).0.log, room, id) == Shown(c.log, room, id)
  {
    hide Shown;
    ShownStep(c.log, Delivered(r, e.id, e.ts, Timeline), room, id);
  }

  lemma {:induction false} EmitShowsNone(c: Client, r: Room, es: seq<Event>, now: int, room: Room, id: string)
    ensures Shown(c.EmitAll(r, es, now).0.log, room, id) == Shown(c.log, room, id)
    decreases |es|
  {
    if es != [] {
      EmitOneShowsNone(c, r, es[0], now, room, id);
      hide Client.EmitTimelineEvent;
      var (t, threw) := c.EmitTimelineEvent(r, es[0], now);
      if !threw {
        EmitShowsNone(t, r, es[1..], now, room, id);
      }
    }
  }

  lemma {:induction false} RoomsShown(c: Client, rooms: seq<RoomSync>, isBootstrap: bool, now: int, room: Room, id: string)
    ensures Shown(c.JoinedRooms(rooms, isBootstrap, now).0.log, room, id)
            == Shown(c.log, room, id) + NamedInRooms(Reached(c, rooms, isBootstrap, now), room, id)
    decreases |rooms|
  {
    if rooms != [] {
      var r := rooms[0];
      var d := c.ShowCapabilities(r.room, r.capabilities).0;
      StatesShown(c, r.room, r.capabilities, room, id);
      EmitShowsNone(d, r.room, r.timeline, now, room, id);
      var (t, threw) := c.JoinedRoom(r, isBootstrap, now);
      var rest := Reached(t, rooms[1..], isBootstrap, now);
      if threw {
        assert [r][1..] == [];
      } else {
        assert ([r] + rest)[1..] == rest;
        RoomsShown(t, rooms[1..], isBootstrap, now, room, id);
      }
    }
  }

  lemma {:induction false} RetryShowsNone(c: Client, keys: seq<Key>, retryable: set<Key>, now: int, room: Room, id: string)
    ensures Shown(c.Retry(keys, retryable, now).log, room, id) == Shown(c.log, room, id)
    decreases |keys|
  {
    if keys != [] {
      if keys[0] in c.pending.values {
        var p := c.pending.values[keys[0]];
        ShownStep(c.log, Delivered(p.room, p.event.id, p.event.ts, Late), room, id);
      }
      RetryShowsNone(c.RetryOne(keys[0], retryable, now), keys[1..], retryable, now, room, id);
    }
  }

  lemma {:induction false} CapabilityCalls(c: Client, steps: seq<Step>, room: Room, id: string)
    ensures Shown(Session(c, steps).log, room, id) == Shown(c.log, room, id) + Occurrences(c, steps, room, id)
    decreases |steps|
  {
    hide Shown;
    hide ReachedIn;
    hide NamedInRooms;
    if steps != [] {
      StepShows(c, steps[0], room, id);
      CapabilityCalls(After(c, steps[0]), steps[1..], room, id);
    }
  }

  /** Over every session a capability state event reaches the handler once per occurrence in the rooms
      that its batches reach, bootstrap or not: at most once exactly when it occurs there at most once. */
  lemma CapabilityCallsExactly(steps: seq<Step>, room: Room, id: string)
    ensures Shown(Session(INITIAL, steps).log, room, id) == Occurrences(INITIAL, steps, room, id)
  {
    CapabilityCalls(INITIAL, steps, room, id);
  }

  lemma OneCapability(c: Client, room: Room, id: string, now: int)
    requires c.pending.order == []
    ensures c.Sync(ShowsOnce(room, id, now)).0 == c.Deliver(room, id, None, Capability)
  {
    var state := CapabilityState(id, false);
    var r := RoomSync(room, [state], true, []);
    var d := c.Deliver(room, id, None, Capability);
    assert [state][1..] == [] && [r][1..] == [];
    assert c.ShowCapabilities(room, [state]) == d.ShowCapabilities(room, [state][1..]) == (d, false);
    assert c.JoinedRoom(r, false, now) == (d, false);
    assert c.JoinedRooms([r], false, now) == d.JoinedRooms([r][1..], false, now) == (d, false);
  }

  ghost function ShowsOnce(room: Room, id: string, now: int): Batch {
    Batch(false, now, NoFailure, {}, [RoomSync(room, [CapabilityState(id, false)], true, [])])
  }

  /** A capability state event in two batches is shown twice. */
  lemma CapabilityRepeats(room: Room, id: string, now: int)
    ensures var b := Synced(ShowsOnce(room, id, now));
            var d := Delivered(room, id, None, Capability);
            Session(INITIAL, [b, b]).log == [d, d]
  {
    var b := Synced(ShowsOnce(room, id, now));
    var c := After(INITIAL, b);
    OneCapability(INITIAL, room, id, now);
    OneCapability(c, room, id, now);
    assert [b, b][1..] == [b] && [b][1..] == [];
    assert Session(c, [b]) == Session(After(c, b), [b][1..]) == After(c, b);
  }

  // ------------------------------------------------------------------- nothing is lost

  /** A timeline event of a batch, with its room. */
  datatype Item = Item(room: Room, event: Event) {
    function Key(): Key {
      EventKey(room, event.id)
    }
  }

  ghost function ItemsOf(room: Room, es: seq<Event>): seq<Item> {
    seq(|es|, i requires 0 <= i < |es| => Item(room, es[i]))
  }

  ghost function Items(rooms: seq<RoomSync>): seq<Item> {
    if rooms == [] then [] else ItemsOf(rooms[0].room, rooms[0].timeline) + Items(rooms[1..])
  }

  /** A timeline event reaches the handler when it is recent, readable and not abandoned. */
  predicate Due(notBefore: Option<int>, e: Event) {
    && !(notBefore.Some? && e.ts.Some? && e.ts.value < notBefore.value)
    && !e.dropped && (e.encrypted ==> e.readable)
  }

  ghost function DueCall(notBefore: Option<int>, i: Item): seq<Delivered> {
    if Due(notBefore, i.event) then [Delivered(i.room, i.event.id, i.event.ts, Timeline)] else []
  }

  ghost function DueCalls(notBefore: Option<int>, items: seq<Item>): seq<Delivered> {
    if items == [] then []
    else DueCalls(notBefore, items[..|items| - 1]) + DueCall(notBefore, items[|items| - 1])
  }

  /** The calls for timeline events. */
  ghost function Timelines(log: seq<Delivered>): seq<Delivered> {
    if log == [] then []
    else Timelines(log[..|log| - 1]) + (if log[|log| - 1].path == Timeline then [log[|log| - 1]] else [])
  }

  /** How far a pass over a timeline gets, and whether a handler stops it; the first `seen` events are
      known from an earlier pass. */
  function Reach(notBefore: Option<int>, es: seq<Event>, seen: int): (r: (nat, bool))
    ensures r.0 <= |es| && (!r.1 ==> r.0 == |es|)
  {
    if es == [] then (0, false)
    else if seen <= 0 && Due(notBefore, es[0]) && es[0].throws then (1, true)
    else
      var (n, stops) := Reach(notBefore, es[1..], seen - 1);
      (n + 1, stops)
  }

  /** Does the handler throw on a capability state, or does key tracking fail? */
  predicate Blocked(r: RoomSync) {
    !r.prepared || exists i :: 0 <= i < |r.capabilities| && r.capabilities[i].throws
  }

  function ReachRooms(notBefore: Option<int>, rooms: seq<RoomSync>, seen: int): (r: (nat, bool))
    ensures r.0 <= |Items(rooms)| && (!r.1 ==> r.0 == |Items(rooms)|)
  {
    if rooms == [] then (0, false)
    else if Blocked(rooms[0]) then (0, true)
    else
      var (n, stops) := Reach(notBefore, rooms[0].timeline, seen);
      if stops then (n, true)
      else
        var (m, later) := ReachRooms(notBefore, rooms[1..], seen - n);
        (n + m, later)
  }

  function ReachBatch(notBefore: Option<int>, b: Batch, seen: int): (r: (nat, bool))
    ensures r.0 <= |Items(b.rooms)|
  {
    if b.failure != NoFailure then (0, true) else ReachRooms(notBefore, b.rooms, seen)
  }

  /** The window ends with these keys. */
  ghost predicate Ends(ring: Ring, keys: seq<Key>) {
    |keys| <= |ring.window| && ring.window[|ring.window| - |keys|..] == keys
  }

  /** Of these keys the first q are recorded, last of all, and the others are new. */
  ghost predicate Progress(c: Client, keys: seq<Key>, q: nat) {
    && q <= |keys| && Distinct(keys) && c.ring.Exact() && c.ring.capacity == DEDUP_CAPACITY
    && (|keys| <= DEDUP_CAPACITY ==> Ends(c.ring, keys[..q])) && forall i :: q <= i < |keys| ==> keys[i] !in c.ring.remembered
  }

  /** These are the events with the given keys. */
  ghost predicate Offers(items: seq<Item>, keys: seq<Key>) {
    |items| == |keys| && forall i :: 0 <= i < |keys| ==> items[i].event.id != "" && items[i].Key() == keys[i]
  }

  function Further(q: nat, n: nat): nat {
    if q < n then n else q
  }

  /** A pass got from the q-th to the n-th of these events, if further at all. */
  ghost predicate Advanced(c: Client, t: Client, items: seq<Item>, keys: seq<Key>, q: nat, n: nat) {
    && t.notBefore == c.notBefore && Progress(t, keys, Further(q, n)) && q <= |items| == |keys| && n <= |items|
    && Timelines(t.log) == Timelines(c.log) + DueCalls(c.notBefore, items[q..Further(q, n)])
  }

  lemma TimelinesStep(log: seq<Delivered>, d: Delivered)
    ensures Timelines(log + [d]) == Timelines(log) + if d.path == Timeline then [d] else []
  {
    assert (log + [d])[..|log|] == log;
  }

  lemma {:induction false} DueJoin(notBefore: Option<int>, a: seq<Item>, b: seq<Item>)
    ensures DueCalls(notBefore, a + b) == DueCalls(notBefore, a) + DueCalls(notBefore, b)
    decreases |b|
  {
    if b == [] {
      assert a + b == a;
    } else {
      assert (a + b)[..|a + b| - 1] == a + b[..|b| - 1];
      DueJoin(notBefore, a, b[..|b| - 1]);
    }
  }

  /** Taking up one new event: recorded, and delivered when due. */
  lemma OneNewEvent(c: Client, i: Item, now: int)
    requires i.event.id != "" && i.Key() !in c.ring.remembered
    ensures var (t, threw) := c.EmitTimelineEvent(i.room, i.event, now);
            && t.ring == c.ring.Record(i.Key()) && t.notBefore == c.notBefore
            && t.log == c.log + DueCall(c.notBefore, i)
            && (threw <==> Due(c.notBefore, i.event) && i.event.throws)
  {
  }

  lemma EndsAfterOne(ring: Ring, keys: seq<Key>, q: nat)
    requires q < |keys| <= ring.capacity && Ends(ring, keys[..q])
    ensures Ends(ring.Record(keys[q]), keys[..q + 1])
  {
    var w, t := ring.window + [keys[q]], ring.Record(keys[q]);
    assert keys[..q + 1] == keys[..q] + [keys[q]];
    assert w[|w| - q - 1..] == keys[..q + 1];
    if |w| > ring.capacity {
      assert t.window == w[1..];
    }
  }

  lemma RecordProgress(c: Client, keys: seq<Key>, q: nat, t: Client)
    requires Progress(c, keys, q) && q < |keys| && t.ring == c.ring.Record(keys[q])
    ensures Progress(t, keys, q + 1)
  {
    RecordExact(c.ring, keys[q]);
    if |keys| <= DEDUP_CAPACITY {
      EndsAfterOne(c.ring, keys, q);
    }
  }

  lemma SeenAlready(c: Client, keys: seq<Key>, q: nat, p: nat)
    requires Progress(c, keys, q) && p < q && |keys| <= DEDUP_CAPACITY
    ensures keys[p] in c.ring.remembered
  {
    assert keys[..q][p] == keys[p];
    assert c.ring.window[|c.ring.window| - q + p] == keys[p];
  }

  /** The p-th event of a pass, when the first q are known. */
  lemma OneItem(c: Client, items: seq<Item>, keys: seq<Key>, q: nat, p: nat, now: int)
    requires Progress(c, keys, q) && Offers(items, keys) && p < |items| && p <= q
    requires p == q || |keys| <= DEDUP_CAPACITY
    ensures var (t, threw) := c.EmitTimelineEvent(items[p].room, items[p].event, now);
            && Advanced(c, t, items, keys, q, p + 1)
            && (threw <==> p == q && Due(c.notBefore, items[p].event) && items[p].event.throws)
  {
    var t := c.EmitTimelineEvent(items[p].room, items[p].event, now).0;
    if p < q {
      SeenAlready(c, keys, q, p);
      assert items[q..q] == [];
    } else {
      OneNewEvent(c, items[p], now);
      RecordProgress(c, keys, q, t);
      var one := items[q..q + 1];
      assert one == [items[q]] && one[..0] == [];
      assert DueCalls(c.notBefore, one) == [] + DueCall(c.notBefore, items[q]);
      if Due(c.notBefore, items[p].event) {
        TimelinesStep(c.log, DueCall(c.notBefore, items[p])[0]);
      }
    }
  }

  lemma NotAdvanced(c: Client, items: seq<Item>, keys: seq<Key>, q: nat, n: nat)
    requires Progress(c, keys, q) && |items| == |keys| && n <= q
    ensures Advanced(c, c, items, keys, q, n)
  {
    assert items[q..q] == [];
  }

  lemma AdvancedTwice(c: Client, d: Client, t: Client, items: seq<Item>, keys: seq<Key>, q: nat, m: nat, n: nat)
    requires Advanced(c, d, items, keys, q, m) && Advanced(d, t, items, keys, Further(q, m), n) && m <= n
    ensures Advanced(c, t, items, keys, q, n)
  {
    hide Progress;
    hide DueCalls;
    hide Timelines;
    var r := Further(q, m);
    DueJoin(c.notBefore, items[q..r], items[r..Further(r, n)]);
    assert items[q..r] + items[r..Further(r, n)] == items[q..Further(q, n)];
  }

  lemma {:induction false} TimelinePass(c: Client, room: Room, es: seq<Event>, now: int,
                                        items: seq<Item>, keys: seq<Key>, q: nat, p: nat)
    requires Progress(c, keys, q) && Offers(items, keys) && p <= q && (p == q || |keys| <= DEDUP_CAPACITY)
    requires p + |es| <= |items| && items[p..p + |es|] == ItemsOf(room, es)
    ensures var (t, threw) := c.EmitAll(room, es, now); var (n, stops) := Reach(c.notBefore, es, q - p);
            threw == stops && Advanced(c, t, items, keys, q, p + n)
    decreases |es|
  {
    hide Progress;
    hide Advanced;
    hide Client.EmitTimelineEvent;
    if es == [] {
      NotAdvanced(c, items, keys, q, p);
    } else {
      assert items[p] == items[p..p + |es|][0] == Item(room, es[0]);
      var (d, threw) := c.EmitTimelineEvent(room, es[0], now);
      OneItem(c, items, keys, q, p, now);
      Unpacked(c, d, items, keys, q, p + 1);
      if !threw {
        assert items[p + 1..p + 1 + |es[1..]|] == items[p..p + |es|][1..] == ItemsOf(room, es[1..]);
        TimelinePass(d, room, es[1..], now, items, keys, Further(q, p + 1), p + 1);
        SameReach(c.notBefore, es[1..], Further(q, p + 1) - (p + 1), q - p - 1);
        var n := Reach(c.notBefore, es[1..], q - p - 1).0;
        AdvancedTwice(c, d, c.EmitAll(room, es, now).0, items, keys, q, p + 1, p + 1 + n);
      }
    }
  }

  lemma Unpacked(c: Client, t: Client, items: seq<Item>, keys: seq<Key>, q: nat, n: nat)
    requires Advanced(c, t, items, keys, q, n)
    ensures t.notBefore == c.notBefore && Progress(t, keys, Further(q, n))
  {
  }

  /** With nothing left to skip it does not matter by how much. */
  lemma {:induction false} SameReach(notBefore: Option<int>, es: seq<Event>, a: int, b: int)
    requires a == b || (a <= 0 && b <= 0)
    ensures Reach(notBefore, es, a) == Reach(notBefore, es, b)
    decreases |es|
  {
    if es != [] {
      SameReach(notBefore, es[1..], a - 1, b - 1);
    }
  }

  lemma {:induction false} SameReachRooms(notBefore: Option<int>, rooms: seq<RoomSync>, a: int, b: int)
    requires a == b || (a <= 0 && b <= 0)
    ensures ReachRooms(notBefore, rooms, a) == ReachRooms(notBefore, rooms, b)
    decreases |rooms|
  {
    if rooms != [] {
      SameReach(notBefore, rooms[0].timeline, a, b);
      var n := Reach(notBefore, rooms[0].timeline, a).0;
      SameReachRooms(notBefore, rooms[1..], a - n, b - n);
    }
  }

  /** Neither capability states nor late decryption touch the timelines. */
  ghost predicate Beside(c: Client, t: Client) {
    t.ring == c.ring && t.notBefore == c.notBefore && Timelines(t.log) == Timelines(c.log)
  }

  lemma {:induction false} StatesBeside(c: Client, room: Room, states: seq<CapabilityState>)
    ensures var (t, threw) := c.ShowCapabilities(room, states);
            Beside(c, t) && (threw <==> exists i :: 0 <= i < |states| && states[i].throws)
    decreases |states|
  {
    if states != [] {
      TimelinesStep(c.log, Delivered(room, states[0].id, None, Capability));
      StatesBeside(c.Deliver(room, states[0].id, None, Capability), room, states[1..]);
      if i :| 0 <= i < |states| && states[i].throws {
        assert i == 0 || states[1..][i - 1].throws;
      }
      if i :| 0 <= i < |states[1..]| && states[1..][i].throws {
        assert states[i + 1].throws;
      }
    }
  }

  lemma {:induction false} RetryBeside(c: Client, keys: seq<Key>, retryable: set<Key>, now: int)
    ensures Beside(c, c.Retry(keys, retryable, now))
    decreases |keys|
  {
    if keys != [] {
      if keys[0] in c.pending.values {
        var p := c.pending.values[keys[0]];
        TimelinesStep(c.log, Delivered(p.room, p.event.id, p.event.ts, Late));
      }
      RetryBeside(c.RetryOne(keys[0], retryable, now), keys[1..], retryable, now);
    }
  }

  lemma BesideAdvanced(c: Client, d: Client, t: Client, items: seq<Item>, keys: seq<Key>, q: nat, n: nat)
    requires Beside(c, d)
    ensures Progress(c, keys, q) <==> Progress(d, keys, q)
    ensures Advanced(c, t, items, keys, q, n) <==> Advanced(d, t, items, keys, q, n)
  {
  }

  lemma RoomPass(c: Client, r: RoomSync, now: int, items: seq<Item>, keys: seq<Key>, q: nat, p: nat)
    requires Progress(c, keys, q) && Offers(items, keys) && p <= q && (p == q || |keys| <= DEDUP_CAPACITY)
    requires p + |r.timeline| <= |items| && items[p..p + |r.timeline|] == ItemsOf(r.room, r.timeline)
    ensures var (t, threw) := c.JoinedRoom(r, false, now); var (n, stops) := Reach(c.notBefore, r.timeline, q - p);
            if Blocked(r) then threw && Advanced(c, t, items, keys, q, p)
            else threw == stops && Advanced(c, t, items, keys, q, p + n)
  {
    hide Progress;
    hide Advanced;
    hide Client.EmitAll;
    hide Client.ShowCapabilities;
    hide Reach;
    var d := c.ShowCapabilities(r.room, r.capabilities).0;
    StatesBeside(c, r.room, r.capabilities);
    BesideAdvanced(c, d, d, items, keys, q, p);
    NotAdvanced(d, items, keys, q, p);
    if !Blocked(r) {
      TimelinePass(d, r.room, r.timeline, now, items, keys, q, p);
      BesideAdvanced(c, d, d.EmitAll(r.room, r.timeline, now).0, items, keys, q,
                     p + Reach(c.notBefore, r.timeline, q - p).0);
    }
  }

  lemma ItemsSplit(rooms: seq<RoomSync>, items: seq<Item>, p: nat)
    requires rooms != [] && p <= |items| && items[p..] == Items(rooms)
    ensures var n := |rooms[0].timeline|;
            && p + n <= |items| && items[p..p + n] == ItemsOf(rooms[0].room, rooms[0].timeline)
            && items[p + n..] == Items(rooms[1..])
  {
    var n := |rooms[0].timeline|;
    assert items[p..p + n] == items[p..][..n] && items[p + n..] == items[p..][n..];
  }

  lemma RoomsUnfold(c: Client, rooms: seq<RoomSync>, now: int, seen: int)
    requires rooms != []
    ensures var (t, threw) := c.JoinedRoom(rooms[0], false, now);
            c.JoinedRooms(rooms, false, now) == if threw then (t, true) else t.JoinedRooms(rooms[1..], false, now)
    ensures var (n, stops) := Reach(c.notBefore, rooms[0].timeline, seen);
            var (m, later) := ReachRooms(c.notBefore, rooms[1..], seen - n);
            ReachRooms(c.notBefore, rooms, seen)
            == if Blocked(rooms[0]) then (0, true) else if stops then (n, true) else (n + m, later)
  {
  }

  lemma EmptyPass(c: Client, now: int, items: seq<Item>, keys: seq<Key>, q: nat, p: nat)
    requires Progress(c, keys, q) && Offers(items, keys) && p <= q && p <= |items| && items[p..] == Items([])
    ensures c.JoinedRooms([], false, now) == (c, false) && ReachRooms(c.notBefore, [], q - p) == (0, false)
    ensures Advanced(c, c, items, keys, q, p) && p == |items|
  {
    NotAdvanced(c, items, keys, q, p);
  }

  lemma {:induction false} RoomsPass(c: Client, rooms: seq<RoomSync>, now: int,
                                     items: seq<Item>, keys: seq<Key>, q: nat, p: nat)
    requires Progress(c, keys, q) && Offers(items, keys) && p <= q && (p == q || |keys| <= DEDUP_CAPACITY)
    requires p <= |items| && items[p..] == Items(rooms)
    ensures var (t, threw) := c.JoinedRooms(rooms, false, now); var (n, stops) := ReachRooms(c.notBefore, rooms, q - p);
            threw == stops && Advanced(c, t, items, keys, q, p + n) && (!threw ==> p + n == |items|)
    decreases |rooms|
  {
    hide *;
    if rooms == [] {
      EmptyPass(c, now, items, keys, q, p);
    } else {
      var r := rooms[0];
      var n := Reach(c.notBefore, r.timeline, q - p).0;
      ItemsSplit(rooms, items, p);
      RoomPass(c, r, now, items, keys, q, p);
      RoomsUnfold(c, rooms, now, q - p);
      var (t, threw) := c.JoinedRoom(r, false, now);
      if !threw {
        var f := Further(q, p + n);
        Unpacked(c, t, items, keys, q, p + n);
        FurtherIs(q, p + n);
        RoomsPass(t, rooms[1..], now, items, keys, f, p + n);
        SameReachRooms(c.notBefore, rooms[1..], f - (p + n), q - p - n);
        var m := ReachRooms(c.notBefore, rooms[1..], q - p - n).0;
        AdvancedTwice(c, t, c.JoinedRooms(rooms, false, now).0, items, keys, q, p + n, p + n + m);
      }
    }
  }

  lemma FurtherIs(q: nat, n: nat)
    ensures Further(q, n) >= n && Further(q, n) >= q && (Further(q, n) == n || Further(q, n) == q)
  {
  }

  lemma SyncPass(c: Client, b: Batch, keys: seq<Key>, q: nat)
    requires !b.isBootstrap && Progress(c, keys, q) && Offers(Items(b.rooms), keys)
    requires q == 0 || |keys| <= DEDUP_CAPACITY
    ensures var (t, threw) := c.Sync(b); var (n, stops) := ReachBatch(c.notBefore, b, q);
            threw == stops && Advanced(c, t, Items(b.rooms), keys, q, n) && (!threw ==> n == |keys|)
  {
    hide Progress;
    hide Advanced;
    hide Client.Retry;
    hide Client.JoinedRooms;
    var items, d := Items(b.rooms), c.Retry(c.pending.order, b.retryable, b.now);
    RetryBeside(c, c.pending.order, b.retryable, b.now);
    NotAdvanced(c, items, keys, q, 0);
    BesideAdvanced(c, d, d, items, keys, q, 0);
    NotAdvanced(d, items, keys, q, 0);
    if b.failure.NoFailure? {
      assert items[0..] == items;
      RoomsPass(d, b.rooms, b.now, items, keys, q, 0);
      var t := d.JoinedRooms(b.rooms, false, b.now).0;
      BesideAdvanced(c, d, t, items, keys, q, ReachBatch(c.notBefore, b, q).0);
    }
  }

  ghost function KeysOf(items: seq<Item>): seq<Key> {
    seq(|items|, i requires 0 <= i < |items| => items[i].Key())
  }

  /** New timeline events of a batch are delivered in order over all its rooms, once each when due, up to
      the one on which the handler throws or the room that fails; those are recorded and the rest stay
      new. */
  lemma NewBatchIsDelivered(c: Client, b: Batch)
    requires !b.isBootstrap && c.ring.Exact() && c.ring.capacity == DEDUP_CAPACITY
    requires var items := Items(b.rooms);
             && Distinct(KeysOf(items))
             && forall i :: 0 <= i < |items| ==> items[i].event.id != "" && items[i].Key() !in c.ring.remembered
    ensures var items, (t, threw), (n, stops) := Items(b.rooms), c.Sync(b), ReachBatch(c.notBefore, b, 0);
            && threw == stops && n <= |items| && (!threw ==> n == |items|)
            && Timelines(t.log) == Timelines(c.log) + DueCalls(c.notBefore, items[..n])
            && t.notBefore == c.notBefore && Progress(t, KeysOf(items), n)
  {
    var items := Items(b.rooms);
    var keys, n := KeysOf(items), ReachBatch(c.notBefore, b, 0).0;
    assert c.ring.window[|c.ring.window|..] == [] == keys[..0];
    SyncPass(c, b, keys, 0);
    assert items[0..n] == items[..n];
  }

  // ------------------------------------------------------------------- a batch offered again

  /** Every batch offers the events with these keys. */
  ghost predicate SameBatch(steps: seq<Step>, keys: seq<Key>) {
    forall step :: step in steps && step.Synced? ==> !step.batch.isBootstrap && Offers(Items(step.batch.rooms), keys)
  }

  /** Where the passes of a session stand after its first step. */
  ghost function NextStop(notBefore: Option<int>, step: Step, keys: seq<Key>, q: nat): (n: nat)
    requires SameBatch([step], keys) && q <= |keys|
    ensures q <= n <= |keys|
  {
    if step.Read? then q
    else
      assert step in [step];
      Further(q, ReachBatch(notBefore, step.batch, q).0)
  }

  /** What the passes of a session deliver of the same events, each from where the one before it stopped. */
  ghost function Slices(notBefore: Option<int>, steps: seq<Step>, keys: seq<Key>, q: nat): seq<Delivered>
    requires SameBatch(steps, keys) && q <= |keys|
    decreases |steps|
  {
    if steps == [] then []
    else
      var n := NextStop(notBefore, steps[0], keys, q);
      (if steps[0].Read? then [] else DueCalls(notBefore, Items(steps[0].batch.rooms)[q..n]))
      + Slices(notBefore, steps[1..], keys, n)
  }

  /** How far they get together. */
  ghost function LastStop(notBefore: Option<int>, steps: seq<Step>, keys: seq<Key>, q: nat): (n: nat)
    requires SameBatch(steps, keys) && q <= |keys|
    ensures q <= n <= |keys|
    decreases |steps|
  {
    if steps == [] then q else LastStop(notBefore, steps[1..], keys, NextStop(notBefore, steps[0], keys, q))
  }

  /** Does some batch pass without a throw? */
  ghost predicate Completes(c: Client, steps: seq<Step>)
    decreases |steps|
  {
    steps != [] && ((steps[0].Synced? && !c.Sync(steps[0].batch).1) || Completes(After(c, steps[0]), steps[1..]))
  }

  lemma StepPass(c: Client, step: Step, keys: seq<Key>, q: nat)
    requires Progress(c, keys, q) && SameBatch([step], keys) && |keys| <= DEDUP_CAPACITY
    ensures var t, n := After(c, step), NextStop(c.notBefore, step, keys, q);
            && t.notBefore == c.notBefore && Progress(t, keys, n)
            && (step.Read? ==> t.log == c.log)
            && (step.Synced? ==>
                  && |Items(step.batch.rooms)| == |keys|
                  && Timelines(t.log) == Timelines(c.log) + DueCalls(c.notBefore, Items(step.batch.rooms)[q..n])
                  && (!c.Sync(step.batch).1 ==> n == |keys|))
  {
    hide Client.Sync;
    match step
    case Synced(b) =>
      assert step in [step];
      SyncPass(c, b, keys, q);
    case Read(room, e, now) => QueueLog(c, room, e, now);
  }

  /** A batch that threw is offered again by the sync loop, any number of times, with fetches in between,
      while what the outside decides may change: every event that is reached is taken up in exactly one
      pass, in order, and delivered when due there; once a pass goes through, all are. The event on which a
      handler threw is not offered to it again. */
  lemma {:induction false} OfferedAgain(c: Client, steps: seq<Step>, keys: seq<Key>, q: nat)
    requires q <= |keys| <= DEDUP_CAPACITY && SameBatch(steps, keys) && Progress(c, keys, q)
    ensures var t, n := Session(c, steps), LastStop(c.notBefore, steps, keys, q);
            && Timelines(t.log) == Timelines(c.log) + Slices(c.notBefore, steps, keys, q)
            && t.notBefore == c.notBefore && Progress(t, keys, n)
            && (Completes(c, steps) ==> n == |keys|)
    decreases |steps|
  {
    hide Progress;
    hide Timelines;
    hide DueCalls;
    hide NextStop;
    if steps != [] {
      var n := NextStop(c.notBefore, steps[0], keys, q);
      StepPass(c, steps[0], keys, q);
      OfferedAgain(After(c, steps[0]), steps[1..], keys, n);
    }
  }

  lemma {:induction false} DeliveriesJoin(a: seq<Delivered>, b: seq<Delivered>, key: Key)
    ensures Deliveries(a + b, key) == Deliveries(a, key) + Deliveries(b, key)
    decreases |b|
  {
    if b == [] {
      assert a + b == a;
    } else {
      assert (a + b)[..|a + b| - 1] == a + b[..|b| - 1];
      DeliveriesJoin(a, b[..|b| - 1], key);
    }
  }

  lemma OneCall(notBefore: Option<int>, items: seq<Item>, keys: seq<Key>, m: nat, i: nat)
    requires Offers(items, keys) && Distinct(keys) && m < |keys| && i < |keys|
    ensures Deliveries(DueCall(notBefore, items[m]), keys[i]) == if m == i && Due(notBefore, items[m].event) then 1 else 0
  {
    var call := DueCall(notBefore, items[m]);
    assert items[m].Key() == keys[m] && (m != i ==> keys[m] != keys[i]);
    assert call != [] ==> call[..0] == [];
  }

  lemma {:induction false} SliceOnce(notBefore: Option<int>, items: seq<Item>, keys: seq<Key>, q: nat, n: nat, i: nat)
    requires Offers(items, keys) && Distinct(keys) && q <= n <= |keys| && i < |keys|
    ensures Deliveries(DueCalls(notBefore, items[q..n]), keys[i])
            == if q <= i < n && Due(notBefore, items[i].event) then 1 else 0
    decreases n
  {
    hide Deliveries;
    hide DueCall;
    hide Due;
    hide Distinct;
    hide DueCalls;
    if q < n {
      SliceOnce(notBefore, items, keys, q, n - 1, i);
      assert items[q..n] == items[q..n - 1] + [items[n - 1]];
      DueMore(notBefore, items[q..n - 1], items[n - 1]);
      DeliveriesJoin(DueCalls(notBefore, items[q..n - 1]), DueCall(notBefore, items[n - 1]), keys[i]);
      OneCall(notBefore, items, keys, n - 1, i);
    } else {
      NoneDelivered(notBefore, keys[i]);
    }
  }

  lemma NoneDelivered(notBefore: Option<int>, key: Key)
    ensures DueCalls(notBefore, []) == [] && Deliveries([], key) == 0
  {
  }

  lemma DueMore(notBefore: Option<int>, items: seq<Item>, i: Item)
    ensures DueCalls(notBefore, items + [i]) == DueCalls(notBefore, items) + DueCall(notBefore, i)
  {
    assert (items + [i])[..|items|] == items;
  }

  /** So none of them is delivered twice, whatever the passes were. */
  lemma {:induction false} NoneTwice(notBefore: Option<int>, steps: seq<Step>, keys: seq<Key>, q: nat, i: nat)
    requires SameBatch(steps, keys) && Distinct(keys) && q <= |keys| && i < |keys|
    ensures Deliveries(Slices(notBefore, steps, keys, q), keys[i]) <= if i < q then 0 else 1
    decreases |steps|
  {
    if steps != [] {
      var n := NextStop(notBefore, steps[0], keys, q);
      NoneTwice(notBefore, steps[1..], keys, n, i);
      if steps[0].Synced? {
        var slice := DueCalls(notBefore, Items(steps[0].batch.rooms)[q..n]);
        SliceOnce(notBefore, Items(steps[0].batch.rooms), keys, q, n, i);
        DeliveriesJoin(slice, Slices(notBefore, steps[1..], keys, n), keys[i]);
      } else {
        DeliveriesJoin([], Slices(notBefore, steps[1..], keys, n), keys[i]);
      }
    }
  }
}
