/** Signed mini-app queries: a query is claimed once, may be released, and may be revoked.

    The signature is ideal, as for callback tokens. A call is given its clock readings, in order. */
module Queries {
  import opened Optional
  import opened Lru
  import opened Numbers
  import opened TokenStore

  datatype Payload = Payload(roomId: string, userId: string, messageId: Option<string>, appId: Option<string>,
                             createdAt: int, expiresAt: int, nonce: string)

  datatype Query = Signed(payload: Payload) | Text(text: string)

  datatype Key = Claimed(query: Query) | Revoked(query: Query)

  /** The readings of one call: the revocation look-up, the expiry test, the claim look-up, the time to
      live, and the store's two. */
  datatype Clock = Clock(revokedAt: int, expiryAt: int, claimedAt: int, ttlAt: int, checkAt: int, addAt: int) {
    predicate Monotone(from: int) {
      from <= revokedAt <= expiryAt <= claimedAt <= ttlAt <= checkAt <= addAt
    }
  }

  datatype Registry = Registry(ttlMs: int, used: Store<Key, ()>) {

    ghost predicate Valid() {
      used.Valid()
    }

    /** Is the query genuine, not revoked and not expired? */
    predicate Open(q: Query, t: Clock) {
      used.Get(Revoked(q), t.revokedAt) == None && q.Signed? && t.expiryAt < q.payload.expiresAt
    }

    /** What a look-up leaves; an open query is also looked up among the claimed. */
    function Peeked(q: Query, t: Clock): Registry {
      var looked := used.Got(Revoked(q), t.revokedAt);
      this.(used := if Open(q, t) then looked.Got(Claimed(q), t.claimedAt) else looked)
    }

    predicate Answered(q: Query, t: Clock) {
      used.Got(Revoked(q), t.revokedAt).Get(Claimed(q), t.claimedAt).Some?
    }

    predicate Claims(q: Query, userId: string, t: Clock) {
      && Open(q, t) && !Answered(q, t)
      && (userId == "" || userId == q.payload.userId)
      && Peeked(q, t).used.Get(Claimed(q), t.checkAt) == None
    }

    function AfterClaim(q: Query, userId: string, t: Clock): Registry {
      if !Open(q, t) || Answered(q, t) || !(userId == "" || userId == q.payload.userId) then Peeked(q, t)
      else
        var checked := Peeked(q, t).used.Got(Claimed(q), t.checkAt);
        this.(used := if Claims(q, userId, t)
                      then checked.Set(Claimed(q), (), AtLeastOne(q.payload.expiresAt - t.ttlAt), t.addAt)
                      else checked)
    }

    function AfterRelease(q: Query): Registry {
      this.(used := used.Delete(Claimed(q)))
    }

    /** A revocation lasts as long as an open query, and for the registry's time to live otherwise. */
    function RevokeTtl(q: Query, t: Clock): int {
      if Open(q, t) then AtLeastOne(q.payload.expiresAt - t.ttlAt) else ttlMs
    }

    function AfterRevoke(q: Query, t: Clock): Registry {
      this.(used := Peeked(q, t).used.Set(Revoked(q), (), RevokeTtl(q, t), t.checkAt)
                                     .Set(Claimed(q), (), RevokeTtl(q, t), t.addAt))
    }
  }

  class SignedMiniAppQueryRegistry {
    const ttlMs: int
    const used: TtlMap<Key, ()>

    ghost function View(): Registry
      reads this, used
    {
      Registry(ttlMs, used.View())
    }

    constructor (ttlMs: int, capacity: int)
      ensures fresh(used) && View().Valid()
      ensures View() == Registry(AtLeastOne(ttlMs), Store(capacity, Ordered(map[], [])))
    {
      this.ttlMs := AtLeastOne(ttlMs);
      used := new TtlMap(capacity);
    }

    method Peek(q: Query, t: Clock) returns (record: Option<Payload>, answered: bool)
      requires View().Valid()
      modifies used
      ensures View().Valid() && View() == old(View()).Peeked(q, t)
      ensures record.Some? <==> old(View()).Open(q, t)
      ensures record.Some? ==> record.value == q.payload && answered == old(View()).Answered(q, t)
    {
      var revoked := used.Get(Revoked(q), t.revokedAt);
      if revoked.Some? || q.Text? || q.payload.expiresAt <= t.expiryAt {
        return None, false;
      }
      var claimed := used.Get(Claimed(q), t.claimedAt);
      return Some(q.payload), claimed.Some?;
    }

    method Claim(q: Query, userId: string, t: Clock) returns (record: Option<Payload>)
      requires View().Valid()
      modifies used
      ensures View().Valid() && View() == old(View()).AfterClaim(q, userId, t)
      ensures record == if old(View()).Claims(q, userId, t) then Some(q.payload) else None
    {
      var answered;
      record, answered := Peek(q, t);
      if record.None? || answered || !(userId == "" || userId == record.value.userId) {
        return None;
      }
      var added := used.TryAdd(Claimed(q), (), AtLeastOne(record.value.expiresAt - t.ttlAt), t.checkAt, t.addAt);
      if !added {
        return None;
      }
    }

    method Release(q: Query)
      requires View().Valid()
      modifies used
      ensures View().Valid() && View() == old(View()).AfterRelease(q)
    {
      used.Delete(Claimed(q));
    }

    method Revoke(q: Query, t: Clock)
      requires View().Valid()
      modifies used
      ensures View().Valid() && View() == old(View()).AfterRevoke(q, t)
    {
      var record, _ := Peek(q, t);
      var ttl := if record.Some? then AtLeastOne(record.value.expiresAt - t.ttlAt) else ttlMs;
      used.Set(Revoked(q), (), ttl, t.checkAt);
      used.Set(Claimed(q), (), ttl, t.addAt);
    }
  }

  // ------------------------------------------------------------ one call

  lemma PeekedValid(r: Registry, q: Query, t: Clock)
    requires r.Valid()
    ensures r.used.Got(Revoked(q), t.revokedAt).Valid() && r.Peeked(q, t).Valid()
    ensures r.Peeked(q, t).used.Got(Claimed(q), t.checkAt).Valid()
  {
    GotValid(r.used, Revoked(q), t.revokedAt);
    GotValid(r.used.Got(Revoked(q), t.revokedAt), Claimed(q), t.claimedAt);
    GotValid(r.Peeked(q, t).used, Claimed(q), t.checkAt);
  }

  /** A claim succeeds exactly for a genuine, unexpired query of the user that is neither revoked nor
      claimed at the time of the look-ups. */
  lemma ClaimsExactly(r: Registry, q: Query, userId: string, t: Clock)
    requires r.Valid() && t.Monotone(t.revokedAt)
    ensures r.Claims(q, userId, t)
            <==> && q.Signed? && t.expiryAt < q.payload.expiresAt
                 && (userId == "" || userId == q.payload.userId)
                 && r.used.Get(Revoked(q), t.revokedAt) == None
                 && r.used.Get(Claimed(q), t.claimedAt) == None
  {
  }

  /** After a claim, the next one succeeds exactly when the entry has run out by its look-up although
      its expiry test, made just before, still passed. */
  lemma SecondClaimExactly(r: Registry, q: Query, userId: string, t: Clock, userId2: string, t2: Clock)
    requires r.Valid() && t.Monotone(t.revokedAt) && t2.Monotone(t.addAt)
    requires r.Claims(q, userId, t) && (userId2 == "" || userId2 == q.payload.userId)
    requires r.Peeked(q, t).used.Got(Claimed(q), t.checkAt).Roomy(t.addAt)
    ensures var e := q.payload.expiresAt;
            r.AfterClaim(q, userId, t).Claims(q, userId2, t2)
            <==> t2.expiryAt < e && t.addAt + AtLeastOne(e - t.ttlAt) <= t2.claimedAt
  {
    PeekedValid(r, q, t);
    SetWithRoom(r.Peeked(q, t).used.Got(Claimed(q), t.checkAt), Claimed(q), (),
                AtLeastOne(q.payload.expiresAt - t.ttlAt), t.addAt);
    ClaimsExactly(r.AfterClaim(q, userId, t), q, userId2, t2);
  }

  lemma RevokedUsed(r: Registry, q: Query, t: Clock)
    requires r.Valid() && t.Monotone(t.revokedAt)
    requires r.Peeked(q, t).used.Roomy(t.checkAt)
    requires r.Peeked(q, t).used.Set(Revoked(q), (), r.RevokeTtl(q, t), t.checkAt).Roomy(t.addAt)
    ensures var u := r.AfterRevoke(q, t).used;
            && u.Valid()
            && Claimed(q) in u.seen.values && u.seen.values[Claimed(q)].until == t.addAt + r.RevokeTtl(q, t)
            && (t.addAt < t.checkAt + r.RevokeTtl(q, t) ==>
                  Revoked(q) in u.seen.values && u.seen.values[Revoked(q)].until == t.checkAt + r.RevokeTtl(q, t))
            && (t.checkAt + r.RevokeTtl(q, t) <= t.addAt ==> Revoked(q) !in u.seen.values)
  {
    PeekedValid(r, q, t);
    var p := r.Peeked(q, t).used;
    SetWithRoom(p, Revoked(q), (), r.RevokeTtl(q, t), t.checkAt);
    SetWithRoom(p.Set(Revoked(q), (), r.RevokeTtl(q, t), t.checkAt), Claimed(q), (), r.RevokeTtl(q, t), t.addAt);
  }

  /** Revoking a query that is already revoked resets its end to the registry's time to live: a query
      that lives longer can be claimed from then on. */
  lemma SecondRevokeExactly(r: Registry, q: Query, t: Clock, at: int, userId: string)
    requires r.Valid() && t.Monotone(t.revokedAt) && t.addAt <= at
    requires q.Signed? && (userId == "" || userId == q.payload.userId)
    requires r.used.Get(Revoked(q), t.revokedAt).Some?
    requires r.Peeked(q, t).used.Roomy(t.checkAt)
    requires r.Peeked(q, t).used.Set(Revoked(q), (), r.RevokeTtl(q, t), t.checkAt).Roomy(t.addAt)
    ensures r.AfterRevoke(q, t).Claims(q, userId, Clock(at, at, at, at, at, at))
            <==> t.addAt + r.ttlMs <= at < q.payload.expiresAt
  {
    RevokedUsed(r, q, t);
    ClaimsExactly(r.AfterRevoke(q, t), q, userId, Clock(at, at, at, at, at, at));
  }

  // ------------------------------------------------------------ whole runs

  datatype Event =
    | Claim(q: Query, userId: string, t: Clock)
    | Release(q: Query, at: int)
    | Revoke(q: Query, t: Clock)
    | Elsewhere(key: Key, ttlMs: int, at: int)

  function After(r: Registry, ev: Event): Registry {
    match ev
    case Claim(q, userId, t) => r.AfterClaim(q, userId, t)
    case Release(q, _) => r.AfterRelease(q)
    case Revoke(q, t) => r.AfterRevoke(q, t)
    case Elsewhere(key, ttlMs, at) => r.(used := r.used.Set(key, (), ttlMs, at))
  }

  function LastReading(ev: Event): int {
    match ev
    case Claim(_, _, t) => t.addAt
    case Release(_, at) => at
    case Revoke(_, t) => t.addAt
    case Elsewhere(_, _, at) => at
  }

  /** The clock does not run backwards, and the store never has to evict. */
  predicate Orderly(r: Registry, ev: Event, from: int) {
    match ev
    case Claim(q, userId, t) => t.Monotone(from) && r.Peeked(q, t).used.Got(Claimed(q), t.checkAt).Roomy(t.addAt)
    case Release(_, at) => from <= at
    case Revoke(q, t) =>
      && t.Monotone(from) && r.Peeked(q, t).used.Roomy(t.checkAt)
      && r.Peeked(q, t).used.Set(Revoked(q), (), r.RevokeTtl(q, t), t.checkAt).Roomy(t.addAt)
    case Elsewhere(_, _, at) => from <= at && r.used.Roomy(at)
  }

  /** The query does not expire between two readings of one claim, and a repeated revocation outlasts it. */
  predicate Careful(r: Registry, ev: Event, q: Query)
    requires q.Signed?
  {
    var e := q.payload.expiresAt;
    match ev
    case Claim(other, _, t) => other == q && t.expiryAt < e ==> t.claimedAt < e
    case Release(_, _) => true
    case Revoke(other, t) => other == q && t.expiryAt < e && !r.Open(q, t) ==> e <= t.addAt + r.ttlMs
    case Elsewhere(key, _, _) => key != Claimed(q)
  }

  ghost predicate GoodRun(r: Registry, events: seq<Event>, q: Query, from: int)
    requires q.Signed?
    decreases |events|
  {
    events != [] ==>
      && Orderly(r, events[0], from) && Careful(r, events[0], q)
      && GoodRun(After(r, events[0]), events[1..], q, LastReading(events[0]))
  }

  predicate Takes(r: Registry, ev: Event, q: Query) {
    ev.Claim? && ev.q == q && r.Claims(q, ev.userId, ev.t)
  }

  predicate Frees(ev: Event, q: Query) {
    ev.Release? && ev.q == q
  }

  /** Does a release stand before every successful claim but the first? */
  predicate Alternates(r: Registry, events: seq<Event>, q: Query, taken: bool)
    decreases |events|
  {
    events == [] ||
    var ev := events[0];
    && !(taken && Takes(r, ev, q))
    && Alternates(After(r, ev), events[1..], q, (taken || Takes(r, ev, q)) && !Frees(ev, q))
  }

  lemma AfterValid(r: Registry, ev: Event, from: int)
    requires r.Valid() && Orderly(r, ev, from)
    ensures After(r, ev).Valid()
  {
    match ev
    case Claim(q, userId, t) =>
      PeekedValid(r, q, t);
      if r.Claims(q, userId, t) {
        SetWithRoom(r.Peeked(q, t).used.Got(Claimed(q), t.checkAt), Claimed(q), (),
                    AtLeastOne(q.payload.expiresAt - t.ttlAt), t.addAt);
      }
    case Release(q, _) => DeleteValid(r.used.seen, Claimed(q));
    case Revoke(q, t) => RevokedUsed(r, q, t);
    case Elsewhere(key, ttlMs, at) => SetAddsOnly(r.used, key, (), ttlMs, at);
  }

  lemma PeekGuards(r: Registry, other: Query, t: Clock, q: Query, from: int)
    requires r.Valid() && q.Signed? && t.Monotone(from)
    requires r.used.Guards(Claimed(q), q.payload.expiresAt, from)
    ensures r.Peeked(other, t).used.Guards(Claimed(q), q.payload.expiresAt, t.ttlAt)
    ensures r.Peeked(other, t).used.Got(Claimed(other), t.checkAt).Guards(Claimed(q), q.payload.expiresAt, t.checkAt)
  {
    var looked := r.used.Got(Revoked(other), t.revokedAt);
    PeekedValid(r, other, t);
    GotGuards(r.used, Revoked(other), t.revokedAt, Claimed(q), q.payload.expiresAt, from);
    GotGuards(looked, Claimed(other), t.claimedAt, Claimed(q), q.payload.expiresAt, t.revokedAt);
    GotGuards(r.Peeked(other, t).used, Claimed(other), t.checkAt, Claimed(q), q.payload.expiresAt, t.ttlAt);
  }

  /** Until it is released, a claimed query is refused and stays claimed. */
  lemma ClaimedStays(r: Registry, ev: Event, q: Query, from: int)
    requires r.Valid() && q.Signed? && Orderly(r, ev, from) && Careful(r, ev, q)
    requires r.used.Guards(Claimed(q), q.payload.expiresAt, from)
    ensures !Takes(r, ev, q)
    ensures !Frees(ev, q) ==>
              After(r, ev).used.Guards(Claimed(q), q.payload.expiresAt, LastReading(ev))
  {
    var e := q.payload.expiresAt;
    match ev
    case Claim(other, userId, t) =>
      ClaimsExactly(r, other, userId, t);
      PeekedValid(r, other, t);
      PeekGuards(r, other, t, q, from);
      if r.Claims(other, userId, t) {
        SetGuards(r.Peeked(other, t).used.Got(Claimed(other), t.checkAt), Claimed(other), (),
                  AtLeastOne(other.payload.expiresAt - t.ttlAt), t.addAt, Claimed(q), e, t.checkAt);
      }
    case Release(other, _) =>
    case Revoke(other, t) =>
      PeekedValid(r, other, t);
      PeekGuards(r, other, t, q, from);
      var p, ttl := r.Peeked(other, t).used, r.RevokeTtl(other, t);
      SetWithRoom(p, Revoked(other), (), ttl, t.checkAt);
      SetGuards(p, Revoked(other), (), ttl, t.checkAt, Claimed(q), e, t.ttlAt);
      SetGuards(p.Set(Revoked(other), (), ttl, t.checkAt), Claimed(other), (), ttl, t.addAt, Claimed(q), e, t.checkAt);
    case Elsewhere(key, ttlMs, at) =>
      SetGuards(r.used, key, (), ttlMs, at, Claimed(q), e, from);
  }

  lemma ClaimGuards(r: Registry, ev: Event, q: Query, from: int)
    requires r.Valid() && q.Signed? && Orderly(r, ev, from) && Takes(r, ev, q)
    ensures After(r, ev).used.Guards(Claimed(q), q.payload.expiresAt, LastReading(ev))
  {
    PeekedValid(r, q, ev.t);
    SetWithRoom(r.Peeked(q, ev.t).used.Got(Claimed(q), ev.t.checkAt), Claimed(q), (),
                AtLeastOne(q.payload.expiresAt - ev.t.ttlAt), ev.t.addAt);
  }

  /** Between two successful claims of a query there is a release. */
  lemma {:induction false} ReleaseBetweenClaims(r: Registry, events: seq<Event>, q: Query, taken: bool, from: int)
    requires r.Valid() && q.Signed? && GoodRun(r, events, q, from)
    requires taken ==> r.used.Guards(Claimed(q), q.payload.expiresAt, from)
    ensures Alternates(r, events, q, taken)
    decreases |events|
  {
    if events != [] {
      var ev := events[0];
      AfterValid(r, ev, from);
      if taken {
        ClaimedStays(r, ev, q, from);
      } else if Takes(r, ev, q) {
        ClaimGuards(r, ev, q, from);
      }
      var now := (taken || Takes(r, ev, q)) && !Frees(ev, q);
      ReleaseBetweenClaims(After(r, ev), events[1..], q, now, LastReading(ev));
    }
  }

  // ------------------------------------------------------------ what the other calls leave

  /** A released query can be claimed again exactly while it is open, by its user. */
  lemma ReleaseReopens(r: Registry, q: Query, userId: string, t: Clock)
    requires r.Valid() && t.Monotone(t.revokedAt)
    ensures r.AfterRelease(q).Claims(q, userId, t)
            <==> && q.Signed? && t.expiryAt < q.payload.expiresAt
                 && (userId == "" || userId == q.payload.userId)
                 && r.used.Get(Revoked(q), t.revokedAt) == None
  {
    DeleteValid(r.used.seen, Claimed(q));
    ClaimsExactly(r.AfterRelease(q), q, userId, t);
    DeletedExactly(r.used, Claimed(q), Revoked(q), t.revokedAt);
    DeletedExactly(r.used, Claimed(q), Revoked(q), t.claimedAt);
  }

  /** A look-up takes away exactly the entries of the query that it finds expired. */
  lemma PeekedExactly(r: Registry, q: Query, t: Clock, key: Key)
    requires r.Valid()
    ensures var u := r.Peeked(q, t).used; var looksOn := r.Open(q, t);
            && u.capacity == r.used.capacity
            && (key in u.seen.values <==>
                  && key in r.used.seen.values
                  && !(key == Revoked(q) && r.used.seen.values[key].until <= t.revokedAt)
                  && !(key == Claimed(q) && looksOn && r.used.seen.values[key].until <= t.claimedAt))
            && (key in u.seen.values ==> u.seen.values[key] == r.used.seen.values[key])
  {
    var looked := r.used.Got(Revoked(q), t.revokedAt);
    GotExactly(r.used, Revoked(q), t.revokedAt);
    GotValid(r.used, Revoked(q), t.revokedAt);
    GotExactly(looked, Claimed(q), t.claimedAt);
  }

  /** A claim that fails leaves what a look-up leaves. */
  lemma FailedClaimOnlyLooks(r: Registry, q: Query, userId: string, t: Clock)
    requires r.Valid() && t.Monotone(t.revokedAt) && !r.Claims(q, userId, t)
    ensures r.AfterClaim(q, userId, t) == r.Peeked(q, t)
  {
    ClaimsExactly(r, q, userId, t);
  }
}
