/** Signed callback tokens: single use through a store of spent tokens that expires.

    The signature is ideal: a token either carries a payload signed with the registry's secret or is
    some other text. Each operation is given the clock readings it makes, in order; `now` is the
    caller's own idea of the time. */
module Callbacks {
  import opened Optional
  import opened Lru
  import opened Numbers
  import opened TokenStore

  datatype Payload = Payload(data: string, roomId: string, userId: string, expiresAt: int, singleUse: bool, alias: string)

  datatype Token = Signed(payload: Payload) | Text(text: string)

  datatype UsedKey = Dead(token: Token) | Answered(token: Token)

  datatype AliasKey = Forward(alias: Token) | Backward(signed: Token)

  /** The clock readings of one call: two look-ups of an alias, then the look-up of a spent token,
      the second look-up and the entry of the store's `tryAdd`. */
  datatype Clock = Clock(aliasAt: int, aliasAgainAt: int, peekAt: int, checkAt: int, addAt: int) {
    predicate Monotone(from: int) {
      from <= aliasAt <= aliasAgainAt <= peekAt <= checkAt <= addAt
    }
  }

  datatype Registry = Registry(ttlMs: int, used: Store<UsedKey, ()>, aliasStore: Store<AliasKey, Token>,
                               aliases: map<Token, Token>, aliasOf: map<Token, Token>)
  {
    /** Aliases are never signed tokens themselves, and lead to signed tokens. */
    ghost predicate Valid() {
      && used.Valid() && aliasStore.Valid()
      && (forall k :: k in aliases ==> k.Text? && aliases[k].Signed?)
      && WellNamed(aliasStore)
    }

    function Canonical(token: Token, at: int): Token {
      if token in aliases then aliases[token]
      else
        var stored := aliasStore.Get(Forward(token), at);
        if stored.Some? then stored.value else token
    }

    /** What a canonicalisation leaves: a hit in the store is remembered. */
    function Canonicalized(token: Token, at: int): Registry {
      if token in aliases then this
      else
        var stored := aliasStore.Get(Forward(token), at);
        var looked := this.(aliasStore := aliasStore.Got(Forward(token), at));
        if stored.Some? then
          looked.(aliases := aliases[token := stored.value], aliasOf := aliasOf[stored.value := token])
        else looked
    }

    function Issued(payload: Payload, ttlMs: int, forwardAt: int, backwardAt: int): Registry {
      var token, alias := Signed(payload), Text(payload.alias);
      this.(aliases := aliases[alias := token], aliasOf := aliasOf[token := alias],
            aliasStore := aliasStore.Set(Forward(alias), token, ttlMs, forwardAt)
                                    .Set(Backward(token), alias, ttlMs, backwardAt))
    }

    function Peek(token: Token, now: int, aliasAt: int, peekAt: int): Option<Payload> {
      var signed := Canonical(token, aliasAt);
      if used.Get(Dead(signed), peekAt).Some? || signed.Text? || signed.payload.expiresAt <= now then None
      else Some(signed.payload)
    }

    function Peeked(token: Token, aliasAt: int, peekAt: int): Registry {
      var looked := Canonicalized(token, aliasAt);
      looked.(used := used.Got(Dead(Canonical(token, aliasAt)), peekAt))
    }

    /** The signed token a call consumes, if it gets that far. */
    function Admitted(token: Token, userId: string, now: int, t: Clock): Option<Payload> {
      var signed := Canonical(token, t.aliasAt);
      var record := Canonicalized(token, t.aliasAt).Peek(signed, now, t.aliasAgainAt, t.peekAt);
      if record.None? || (record.value.userId != "" && userId != "" && record.value.userId != userId) then None
      else record
    }

    function Resolve(token: Token, userId: string, now: int, t: Clock): Option<Payload> {
      var record := Admitted(token, userId, now, t);
      var signed := Canonical(token, t.aliasAt);
      var peeked := Canonicalized(token, t.aliasAt).Peeked(signed, t.aliasAgainAt, t.peekAt);
      if record.Some? && record.value.singleUse && peeked.used.Get(Dead(signed), t.checkAt).Some? then None
      else record
    }

    function Resolved(token: Token, userId: string, now: int, t: Clock): Registry {
      var record := Admitted(token, userId, now, t);
      var signed := Canonical(token, t.aliasAt);
      var peeked := Canonicalized(token, t.aliasAt).Peeked(signed, t.aliasAgainAt, t.peekAt);
      if record.None? || !record.value.singleUse then peeked
      else
        var checked := peeked.used.Got(Dead(signed), t.checkAt);
        if peeked.used.Get(Dead(signed), t.checkAt).Some? then peeked.(used := checked)
        else
          peeked.(used := checked.Set(Dead(signed), (), AtLeastOne(record.value.expiresAt - now), t.addAt))
    }

    /** A revoked token is spent for the registry's own time to live, and its alias forgotten. */
    function Revoked(token: Token, aliasAt: int, addAt: int, lookAt: int): Registry {
      var signed := Canonical(token, aliasAt);
      var looked := Canonicalized(token, aliasAt);
      var spent := looked.(used := used.Set(Dead(signed), (), ttlMs, addAt));
      var known := signed in looked.aliasOf;
      var stored := looked.aliasStore.Get(Backward(signed), lookAt);
      var searched := if known then spent else spent.(aliasStore := spent.aliasStore.Got(Backward(signed), lookAt));
      if !known && stored.None? then searched
      else
        var alias := if known then looked.aliasOf[signed] else stored.value;
        searched.(aliases := searched.aliases - {alias}, aliasOf := searched.aliasOf - {signed},
                  aliasStore := searched.aliasStore.Delete(Forward(alias)).Delete(Backward(signed)))
    }
  }

  ghost predicate WellNamed(s: Store<AliasKey, Token>) {
    forall k :: k in s.seen.values && k.Forward? ==> k.alias.Text? && s.seen.values[k].value.Signed?
  }

  class SignedCallbackRegistry {
    const ttlMs: int
    const used: TtlMap<UsedKey, ()>
    const aliasStore: TtlMap<AliasKey, Token>
    var aliases: map<Token, Token>
    var aliasOf: map<Token, Token>

    ghost function View(): Registry
      reads this, used, aliasStore
    {
      Registry(ttlMs, used.View(), aliasStore.View(), aliases, aliasOf)
    }

    ghost predicate Valid()
      reads this, used, aliasStore
    {
      used.View().Valid() && aliasStore.View().Valid()
    }

    constructor (ttlMs: int, capacity: int)
      ensures Valid() && fresh(used) && fresh(aliasStore)
      ensures View() == Registry(AtLeastOne(ttlMs), Store(capacity, Ordered(map[], [])),
                                 Store(capacity, Ordered(map[], [])), map[], map[])
    {
      this.ttlMs := AtLeastOne(ttlMs);
      used := new TtlMap(capacity);
      aliasStore := new TtlMap(capacity);
      aliases, aliasOf := map[], map[];
    }

    method Canonicalize(token: Token, at: int) returns (signed: Token)
      requires Valid()
      modifies this, aliasStore
      ensures Valid() && signed == old(View()).Canonical(token, at) && View() == old(View()).Canonicalized(token, at)
    {
      if token in aliases {
        return aliases[token];
      }
      var stored := aliasStore.Get(Forward(token), at);
      if stored.Some? {
        aliases := aliases[token := stored.value];
        aliasOf := aliasOf[stored.value := token];
        return stored.value;
      }
      return token;
    }

    method Issue(data: string, roomId: string, userId: string, ttlMs: int, singleUse: bool, alias: string,
                 now: int, forwardAt: int, backwardAt: int) returns (token: Token)
      requires Valid()
      modifies this, aliasStore
      ensures Valid()
      ensures token == Signed(Payload(data, roomId, userId, now + ttlMs, singleUse, alias))
      ensures View() == old(View()).Issued(token.payload, ttlMs, forwardAt, backwardAt)
    {
      token := Signed(Payload(data, roomId, userId, now + ttlMs, singleUse, alias));
      aliases := aliases[Text(alias) := token];
      aliasOf := aliasOf[token := Text(alias)];
      aliasStore.Set(Forward(Text(alias)), token, ttlMs, forwardAt);
      aliasStore.Set(Backward(token), Text(alias), ttlMs, backwardAt);
    }

    method Peek(token: Token, now: int, aliasAt: int, peekAt: int) returns (record: Option<Payload>)
      requires Valid()
      modifies this, used, aliasStore
      ensures Valid() && record == old(View()).Peek(token, now, aliasAt, peekAt)
      ensures View() == old(View()).Peeked(token, aliasAt, peekAt)
    {
      var signed := Canonicalize(token, aliasAt);
      var dead := used.Get(Dead(signed), peekAt);
      if dead.Some? || signed.Text? || signed.payload.expiresAt <= now {
        return None;
      }
      return Some(signed.payload);
    }

    method Resolve(token: Token, userId: string, now: int, t: Clock) returns (record: Option<Payload>)
      requires Valid()
      modifies this, used, aliasStore
      ensures Valid() && record == old(View()).Resolve(token, userId, now, t)
      ensures View() == old(View()).Resolved(token, userId, now, t)
    {
      hide Registry.Canonical;
      hide Registry.Canonicalized;
      hide Registry.Peek;
      hide Registry.Peeked;
      hide Store.Set;
      hide Store.Got;
      hide Store.Get;
      var signed := Canonicalize(token, t.aliasAt);
      record := Peek(signed, now, t.aliasAgainAt, t.peekAt);
      if record.None? {
        return None;
      }
      if record.value.userId != "" && userId != "" && record.value.userId != userId {
        return None;
      }
      if record.value.singleUse {
        var added := used.TryAdd(Dead(signed), (), AtLeastOne(record.value.expiresAt - now), t.checkAt, t.addAt);
        if !added {
          return None;
        }
      }
    }

    method Revoke(token: Token, aliasAt: int, addAt: int, lookAt: int)
      requires Valid()
      modifies this, used, aliasStore
      ensures Valid() && View() == old(View()).Revoked(token, aliasAt, addAt, lookAt)
    {
      var signed := Canonicalize(token, aliasAt);
      used.Set(Dead(signed), (), ttlMs, addAt);
      var alias: Option<Token>;
      if signed in aliasOf {
        alias := Some(aliasOf[signed]);
      } else {
        alias := aliasStore.Get(Backward(signed), lookAt);
      }
      if alias.Some? {
        aliases := aliases - {alias.value};
        aliasOf := aliasOf - {signed};
        aliasStore.Delete(Forward(alias.value));
        aliasStore.Delete(Backward(signed));
      }
    }
  }

  // ------------------------------------------------------------ one call

  lemma GotWellNamed(s: Store<AliasKey, Token>, key: AliasKey, at: int)
    requires s.Valid() && WellNamed(s)
    ensures s.Got(key, at).Valid() && WellNamed(s.Got(key, at))
  {
    GotValid(s, key, at);
  }

  lemma SetWellNamed(s: Store<AliasKey, Token>, key: AliasKey, value: Token, ttlMs: int, at: int)
    requires s.Valid() && WellNamed(s)
    requires key.Forward? ==> key.alias.Text? && value.Signed?
    ensures s.Set(key, value, ttlMs, at).Valid() && WellNamed(s.Set(key, value, ttlMs, at))
  {
    SetAddsOnly(s, key, value, ttlMs, at);
  }

  lemma CanonicalizedValid(r: Registry, token: Token, at: int)
    requires r.Valid()
    ensures r.Canonicalized(token, at).Valid()
    ensures r.Canonical(token, at).Text? ==> r.Canonical(token, at) == token
    ensures token.Signed? ==> r.Canonical(token, at) == token
    ensures r.Canonicalized(token, at).used == r.used
  {
    GotWellNamed(r.aliasStore, Forward(token), at);
  }

  /** The second look-up of an alias finds what the first did. */
  lemma CanonicalTwice(r: Registry, token: Token, at: int, again: int)
    requires r.Valid() && at <= again
    ensures var signed := r.Canonical(token, at);
            r.Canonicalized(token, at).Canonical(signed, again) == signed
  {
    CanonicalizedValid(r, token, at);
    var looked := r.Canonicalized(token, at);
    if r.Canonical(token, at).Signed? {
      CanonicalizedValid(looked, r.Canonical(token, at), again);
    }
  }

  /** A call gives a record exactly when its name leads to a signed token that has not expired for the
      caller, is not for someone else, and is not spent at the time of the look-up. */
  lemma ResolvesExactly(r: Registry, token: Token, userId: string, now: int, t: Clock)
    requires r.Valid() && t.Monotone(t.aliasAt)
    ensures var signed := r.Canonical(token, t.aliasAt);
            r.Resolve(token, userId, now, t)
            == if signed.Signed? && now < signed.payload.expiresAt
                  && (signed.payload.userId == "" || userId == "" || userId == signed.payload.userId)
                  && r.used.Get(Dead(signed), t.peekAt) == None
               then Some(signed.payload)
               else None
  {
    CanonicalizedValid(r, token, t.aliasAt);
    CanonicalTwice(r, token, t.aliasAt, t.aliasAgainAt);
    var signed := r.Canonical(token, t.aliasAt);
    CanonicalizedValid(r.Canonicalized(token, t.aliasAt), signed, t.aliasAgainAt);
  }

  /** What a call does to the store of spent tokens. */
  lemma ResolvedUsed(r: Registry, token: Token, userId: string, now: int, t: Clock)
    requires r.Valid() && t.Monotone(t.aliasAt)
    ensures var signed := r.Canonical(token, t.aliasAt);
            var peeked := r.used.Got(Dead(signed), t.peekAt);
            var p := r.Resolve(token, userId, now, t);
            && r.Resolved(token, userId, now, t).Valid()
            && (p.None? || !p.value.singleUse ==>
                  r.Resolved(token, userId, now, t).used == peeked)
            && (p.Some? && p.value.singleUse ==>
                  r.Resolved(token, userId, now, t).used
                  == peeked.Got(Dead(signed), t.checkAt).Set(Dead(signed), (), AtLeastOne(p.value.expiresAt - now), t.addAt))
  {
    hide Store.Set;
    hide Registry.Canonical;
    hide Registry.Canonicalized;
    ResolvesExactly(r, token, userId, now, t);
    CanonicalizedValid(r, token, t.aliasAt);
    CanonicalTwice(r, token, t.aliasAt, t.aliasAgainAt);
    var signed := r.Canonical(token, t.aliasAt);
    CanonicalizedValid(r.Canonicalized(token, t.aliasAt), signed, t.aliasAgainAt);
    GotValid(r.used, Dead(signed), t.peekAt);
    GotValid(r.used.Got(Dead(signed), t.peekAt), Dead(signed), t.checkAt);
    var checked := r.used.Got(Dead(signed), t.peekAt).Got(Dead(signed), t.checkAt);
    var p := r.Admitted(token, userId, now, t);
    if p.Some? {
      SetAddsOnly(checked, Dead(signed), (), AtLeastOne(p.value.expiresAt - now), t.addAt);
    }
  }

  // ------------------------------------------------------------ exactly when a spent token opens again

  /** May this user press a button with this payload? */
  predicate For(p: Payload, userId: string) {
    p.userId == "" || userId == "" || userId == p.userId
  }

  /** After a single-use token was resolved, a second call by any of its names resolves it again exactly
      when the entry has run out by its look-up although its caller still reckons the token unexpired. */
  lemma SecondCallExactly(r: Registry, token: Token, userId: string, now: int, t: Clock,
                          token2: Token, userId2: string, now2: int, t2: Clock)
    requires r.Valid() && t.Monotone(t.aliasAt) && t2.Monotone(t.addAt)
    requires r.Resolve(token, userId, now, t).Some? && r.Resolve(token, userId, now, t).value.singleUse
    requires r.used.Got(Dead(r.Canonical(token, t.aliasAt)), t.peekAt)
                   .Got(Dead(r.Canonical(token, t.aliasAt)), t.checkAt).Roomy(t.addAt)
    requires r.Resolved(token, userId, now, t).Canonical(token2, t2.aliasAt) == r.Canonical(token, t.aliasAt)
    requires For(r.Resolve(token, userId, now, t).value, userId2)
    ensures var e := r.Resolve(token, userId, now, t).value.expiresAt;
            r.Resolved(token, userId, now, t).Resolve(token2, userId2, now2, t2).Some?
            <==> now2 < e && t.addAt + AtLeastOne(e - now) <= t2.peekAt
  {
    ResolvesExactly(r, token, userId, now, t);
    ResolvedUsed(r, token, userId, now, t);
    var signed := r.Canonical(token, t.aliasAt);
    var checked := r.used.Got(Dead(signed), t.peekAt).Got(Dead(signed), t.checkAt);
    GotValid(r.used, Dead(signed), t.peekAt);
    GotValid(r.used.Got(Dead(signed), t.peekAt), Dead(signed), t.checkAt);
    SetWithRoom(checked, Dead(signed), (), AtLeastOne(signed.payload.expiresAt - now), t.addAt);
    ResolvesExactly(r.Resolved(token, userId, now, t), token2, userId2, now2, t2);
  }

  lemma RevokedUsed(r: Registry, token: Token, aliasAt: int, addAt: int, lookAt: int)
    requires r.Valid()
    ensures r.Revoked(token, aliasAt, addAt, lookAt).Valid()
    ensures r.Revoked(token, aliasAt, addAt, lookAt).used == r.used.Set(Dead(r.Canonical(token, aliasAt)), (), r.ttlMs, addAt)
  {
    CanonicalizedValid(r, token, aliasAt);
    var signed := r.Canonical(token, aliasAt);
    var looked := r.Canonicalized(token, aliasAt);
    SetAddsOnly(r.used, Dead(signed), (), r.ttlMs, addAt);
    GotWellNamed(looked.aliasStore, Backward(signed), lookAt);
    forall s: Store<AliasKey, Token>, k | s.Valid() && WellNamed(s) ensures s.Delete(k).Valid() && WellNamed(s.Delete(k)) {
      DeleteValid(s.seen, k);
    }
  }

  /** A revoked token stays closed exactly until the registry's time to live is over: if its own life is
      longer, it opens again. */
  lemma AfterRevokeExactly(r: Registry, signed: Token, aliasAt: int, addAt: int, lookAt: int, userId: string, at: int)
    requires r.Valid() && signed.Signed? && r.used.Roomy(addAt) && addAt <= at && For(signed.payload, userId)
    ensures r.Revoked(signed, aliasAt, addAt, lookAt).Resolve(signed, userId, at, Clock(at, at, at, at, at)).Some?
            <==> addAt + r.ttlMs <= at < signed.payload.expiresAt
  {
    RevokedUsed(r, signed, aliasAt, addAt, lookAt);
    CanonicalizedValid(r, signed, aliasAt);
    SetWithRoom(r.used, Dead(signed), (), r.ttlMs, addAt);
    var revoked := r.Revoked(signed, aliasAt, addAt, lookAt);
    CanonicalizedValid(revoked, signed, at);
    ResolvesExactly(revoked, signed, userId, at, Clock(at, at, at, at, at));
  }

  // ------------------------------------------------------------ whole runs

  datatype Event =
    | Issue(payload: Payload, ttlMs: int, forwardAt: int, backwardAt: int)
    | Resolve(token: Token, userId: string, now: int, t: Clock)
    | Revoke(token: Token, aliasAt: int, addAt: int, lookAt: int)
    | Elsewhere(key: UsedKey, ttlMs: int, at: int)

  function After(r: Registry, ev: Event): Registry {
    match ev
    case Issue(payload, ttlMs, forwardAt, backwardAt) => r.Issued(payload, ttlMs, forwardAt, backwardAt)
    case Resolve(token, userId, now, t) => r.Resolved(token, userId, now, t)
    case Revoke(token, aliasAt, addAt, lookAt) => r.Revoked(token, aliasAt, addAt, lookAt)
    case Elsewhere(key, ttlMs, at) => r.(used := r.used.Set(key, (), ttlMs, at))
  }

  function Record(r: Registry, ev: Event): Option<Payload> {
    if ev.Resolve? then r.Resolve(ev.token, ev.userId, ev.now, ev.t) else None
  }

  function LastReading(ev: Event): int {
    match ev
    case Issue(_, _, _, backwardAt) => backwardAt
    case Resolve(_, _, _, t) => t.addAt
    case Revoke(_, _, _, lookAt) => lookAt
    case Elsewhere(_, _, at) => at
  }

  /** The clock does not run backwards, and the store of spent tokens never has to evict. */
  predicate Orderly(r: Registry, ev: Event, from: int) {
    match ev
    case Issue(_, _, forwardAt, backwardAt) => from <= forwardAt <= backwardAt
    case Resolve(token, _, _, t) =>
      && t.Monotone(from)
      && var key := Dead(r.Canonical(token, t.aliasAt));
      r.used.Got(key, t.peekAt).Got(key, t.checkAt).Roomy(t.addAt)
    case Revoke(_, aliasAt, addAt, lookAt) => from <= aliasAt <= addAt <= lookAt && r.used.Roomy(addAt)
    case Elsewhere(_, _, at) => from <= at && r.used.Roomy(at)
  }

  /** The caller's time is not ahead of the clock, and the token does not expire between the two;
      a revocation outlasts the token; others keep to their own keys. */
  predicate Careful(r: Registry, ev: Event, signed: Token)
    requires signed.Signed?
  {
    match ev
    case Issue(_, _, _, _) => true
    case Resolve(token, _, now, t) =>
      r.Canonical(token, t.aliasAt) == signed ==>
        now <= t.addAt && (now < signed.payload.expiresAt ==> t.peekAt < signed.payload.expiresAt)
    case Revoke(token, aliasAt, addAt, _) =>
      r.Canonical(token, aliasAt) == signed ==> signed.payload.expiresAt <= addAt + r.ttlMs
    case Elsewhere(key, _, _) => key != Dead(signed)
  }

  ghost predicate GoodRun(r: Registry, events: seq<Event>, signed: Token, from: int)
    requires signed.Signed?
    decreases |events|
  {
    events != [] ==>
      && Orderly(r, events[0], from) && Careful(r, events[0], signed)
      && GoodRun(After(r, events[0]), events[1..], signed, LastReading(events[0]))
  }

  function Uses(r: Registry, events: seq<Event>, signed: Token): nat
    requires signed.Signed?
    decreases |events|
  {
    if events == [] then 0
    else (if Record(r, events[0]) == Some(signed.payload) then 1 else 0) + Uses(After(r, events[0]), events[1..], signed)
  }

  lemma IssuedValid(r: Registry, payload: Payload, ttlMs: int, forwardAt: int, backwardAt: int)
    requires r.Valid()
    ensures r.Issued(payload, ttlMs, forwardAt, backwardAt).Valid()
  {
    var token, alias := Signed(payload), Text(payload.alias);
    SetWellNamed(r.aliasStore, Forward(alias), token, ttlMs, forwardAt);
    SetWellNamed(r.aliasStore.Set(Forward(alias), token, ttlMs, forwardAt), Backward(token), alias, ttlMs, backwardAt);
  }

  lemma AfterValid(r: Registry, ev: Event)
    requires r.Valid() && (ev.Resolve? ==> ev.t.Monotone(ev.t.aliasAt))
    ensures After(r, ev).Valid()
  {
    match ev
    case Issue(payload, ttlMs, forwardAt, backwardAt) => IssuedValid(r, payload, ttlMs, forwardAt, backwardAt);
    case Resolve(token, userId, now, t) => ResolvedUsed(r, token, userId, now, t);
    case Revoke(token, aliasAt, addAt, lookAt) => RevokedUsed(r, token, aliasAt, addAt, lookAt);
    case Elsewhere(key, ttlMs, at) => SetAddsOnly(r.used, key, (), ttlMs, at);
  }

  /** A spent token is refused, and stays spent. */
  lemma SpentStays(r: Registry, ev: Event, signed: Token, from: int)
    requires r.Valid() && signed.Signed? && Orderly(r, ev, from) && Careful(r, ev, signed)
    requires r.used.Guards(Dead(signed), signed.payload.expiresAt, from)
    ensures After(r, ev).used.Guards(Dead(signed), signed.payload.expiresAt, LastReading(ev))
    ensures Record(r, ev) != Some(signed.payload)
  {
    var guarded, e := Dead(signed), signed.payload.expiresAt;
    match ev
    case Issue(_, _, _, _) =>
    case Resolve(token, userId, now, t) =>
      var key := Dead(r.Canonical(token, t.aliasAt));
      var peeked := r.used.Got(key, t.peekAt);
      var checked := peeked.Got(key, t.checkAt);
      ResolvesExactly(r, token, userId, now, t);
      ResolvedUsed(r, token, userId, now, t);
      GotValid(r.used, key, t.peekAt);
      GotValid(peeked, key, t.checkAt);
      GotGuards(r.used, key, t.peekAt, guarded, e, from);
      GotGuards(peeked, key, t.checkAt, guarded, e, t.peekAt);
      var p := r.Resolve(token, userId, now, t);
      if p.Some? {
        SetGuards(checked, key, (), AtLeastOne(p.value.expiresAt - now), t.addAt, guarded, e, t.checkAt);
      }
    case Revoke(token, aliasAt, addAt, lookAt) =>
      RevokedUsed(r, token, aliasAt, addAt, lookAt);
      SetGuards(r.used, Dead(r.Canonical(token, aliasAt)), (), r.ttlMs, addAt, guarded, e, from);
    case Elsewhere(key, ttlMs, at) =>
      SetGuards(r.used, key, (), ttlMs, at, guarded, e, from);
  }

  /** A use spends the token until it expires. */
  lemma UseSpends(r: Registry, ev: Event, signed: Token, from: int)
    requires r.Valid() && signed.Signed? && signed.payload.singleUse && Orderly(r, ev, from) && Careful(r, ev, signed)
    requires Record(r, ev) == Some(signed.payload)
    ensures After(r, ev).used.Guards(Dead(signed), signed.payload.expiresAt, LastReading(ev))
  {
    var t := ev.t;
    ResolvesExactly(r, ev.token, ev.userId, ev.now, t);
    ResolvedUsed(r, ev.token, ev.userId, ev.now, t);
    GotValid(r.used, Dead(signed), t.peekAt);
    GotValid(r.used.Got(Dead(signed), t.peekAt), Dead(signed), t.checkAt);
    SetWithRoom(r.used.Got(Dead(signed), t.peekAt).Got(Dead(signed), t.checkAt), Dead(signed), (),
                AtLeastOne(signed.payload.expiresAt - ev.now), t.addAt);
  }

  /** A single-use token resolves at most once in a whole run, under all of its names together. */
  lemma {:induction false} AtMostOnce(r: Registry, events: seq<Event>, signed: Token, from: int)
    requires r.Valid() && signed.Signed? && signed.payload.singleUse && GoodRun(r, events, signed, from)
    ensures Uses(r, events, signed) <= 1
    ensures r.used.Guards(Dead(signed), signed.payload.expiresAt, from) ==> Uses(r, events, signed) == 0
    decreases |events|
  {
    if events != [] {
      var ev := events[0];
      AfterValid(r, ev);
      AtMostOnce(After(r, ev), events[1..], signed, LastReading(ev));
      if r.used.Guards(Dead(signed), signed.payload.expiresAt, from) {
        SpentStays(r, ev, signed, from);
      } else if Record(r, ev) == Some(signed.payload) {
        UseSpends(r, ev, signed, from);
      }
    }
  }

  /** A freshly issued token resolves to what it was issued with, under either name. */
  lemma IssuedResolves(r: Registry, payload: Payload, ttlMs: int, forwardAt: int, backwardAt: int,
                       byAlias: bool, userId: string, now: int, t: Clock)
    requires r.Valid() && backwardAt <= t.aliasAt && t.Monotone(t.aliasAt)
    requires now < payload.expiresAt && For(payload, userId)
    requires Dead(Signed(payload)) !in r.used.seen.values
    ensures r.Issued(payload, ttlMs, forwardAt, backwardAt)
             .Resolve(if byAlias then Text(payload.alias) else Signed(payload), userId, now, t) == Some(payload)
  {
    var issued := r.Issued(payload, ttlMs, forwardAt, backwardAt);
    IssuedValid(r, payload, ttlMs, forwardAt, backwardAt);
    CanonicalizedValid(issued, Signed(payload), t.aliasAt);
    ResolvesExactly(issued, if byAlias then Text(payload.alias) else Signed(payload), userId, now, t);
  }

  // ------------------------------------------------------------ aliases

  /** An alias that memory knows leads on without touching the store. */
  lemma KnownAliasStaysPut(r: Registry, token: Token, at: int)
    requires token in r.aliases
    ensures r.Canonicalized(token, at) == r && r.Canonical(token, at) == r.aliases[token]
  {
  }

  /** An alias once looked up leads to its token for good, even after the store has dropped it. */
  lemma AliasIsRemembered(r: Registry, token: Token, at: int, later: int)
    requires r.Valid() && token.Text? && r.Canonical(token, at).Signed?
    ensures r.Canonicalized(token, at).Canonical(token, later) == r.Canonical(token, at)
  {
  }

  /** A look-up takes away the store's entry for the name when it finds it expired, and nothing else. */
  lemma LookUpOnlyDropsExpired(r: Registry, token: Token, at: int, key: AliasKey)
    requires r.Valid()
    ensures var t := r.Canonicalized(token, at).aliasStore;
            && (key in t.seen.values <==>
                  key in r.aliasStore.seen.values
                  && !(token !in r.aliases && key == Forward(token) && r.aliasStore.seen.values[key].until <= at))
            && (key in t.seen.values ==> t.seen.values[key] == r.aliasStore.seen.values[key])
  {
    GotExactly(r.aliasStore, Forward(token), at);
  }

  /** Every alias is the one that its token carries, in memory both ways and in the store both ways. */
  ghost predicate Named(r: Registry) {
    && (forall a :: a in r.aliases ==>
          r.aliases[a].Signed? && a == Text(r.aliases[a].payload.alias) && r.aliases[a] in r.aliasOf)
    && (forall s :: s in r.aliasOf ==> s.Signed? && r.aliasOf[s] == Text(s.payload.alias))
    && NamedStore(r.aliasStore)
  }

  ghost predicate NamedStore(s: Store<AliasKey, Token>) {
    forall k :: k in s.seen.values ==>
      match k
      case Forward(alias) => s.seen.values[k].value.Signed? && alias == Text(s.seen.values[k].value.payload.alias)
      case Backward(signed) => signed.Signed? && s.seen.values[k].value == Text(signed.payload.alias)
  }

  lemma SetNamed(s: Store<AliasKey, Token>, key: AliasKey, value: Token, ttlMs: int, at: int)
    requires s.Valid() && NamedStore(s)
    requires match key
             case Forward(alias) => value.Signed? && alias == Text(value.payload.alias)
             case Backward(signed) => signed.Signed? && value == Text(signed.payload.alias)
    ensures s.Set(key, value, ttlMs, at).Valid() && NamedStore(s.Set(key, value, ttlMs, at))
  {
    SetAddsOnly(s, key, value, ttlMs, at);
  }

  lemma CanonicalizedNamed(r: Registry, token: Token, at: int)
    requires r.Valid() && Named(r)
    ensures Named(r.Canonicalized(token, at))
    ensures r.Canonical(token, at).Signed? && r.Canonical(token, at) != token ==>
              token == Text(r.Canonical(token, at).payload.alias) && r.Canonical(token, at) in r.Canonicalized(token, at).aliasOf
    ensures forall s :: s in r.aliasOf ==> s in r.Canonicalized(token, at).aliasOf
  {
    GotExactly(r.aliasStore, Forward(token), at);
  }

  lemma DroppedNamed(s: Store<AliasKey, Token>, key: AliasKey, at: int)
    requires s.Valid() && NamedStore(s)
    ensures NamedStore(s.Got(key, at)) && NamedStore(s.Delete(key)) && s.Delete(key).Valid()
  {
    GotExactly(s, key, at);
    DeleteValid(s.seen, key);
  }

  lemma ForgottenNamed(r: Registry, signed: Token, store: Store<AliasKey, Token>)
    requires Named(r) && signed.Signed? && NamedStore(store)
    ensures Named(r.(aliases := r.aliases - {Text(signed.payload.alias)}, aliasOf := r.aliasOf - {signed},
                     aliasStore := store))
  {
  }

  lemma StoreNamed(r: Registry, used: Store<UsedKey, ()>, store: Store<AliasKey, Token>)
    requires Named(r) && NamedStore(store)
    ensures Named(r.(used := used, aliasStore := store)) && Named(r.(used := used))
  {
  }

  /** What a revocation forgets, when it knows an alias. */
  lemma RevokedAlias(r: Registry, token: Token, aliasAt: int, lookAt: int)
    requires r.Valid() && Named(r)
    ensures var looked, signed := r.Canonicalized(token, aliasAt), r.Canonical(token, aliasAt);
            && (signed in looked.aliasOf ==> signed.Signed? && looked.aliasOf[signed] == Text(signed.payload.alias))
            && (looked.aliasStore.Get(Backward(signed), lookAt).Some? ==>
                  signed.Signed? && looked.aliasStore.Get(Backward(signed), lookAt).value == Text(signed.payload.alias))
            && looked.aliasStore.Valid() && NamedStore(looked.aliasStore) && Named(looked)
  {
    CanonicalizedNamed(r, token, aliasAt);
    CanonicalizedValid(r, token, aliasAt);
  }

  lemma RevokedNamed(r: Registry, token: Token, aliasAt: int, addAt: int, lookAt: int)
    requires r.Valid() && Named(r)
    ensures Named(r.Revoked(token, aliasAt, addAt, lookAt))
  {
    hide Named;
    hide NamedStore;
    hide Registry.Canonical;
    hide Registry.Canonicalized;
    hide Store.Set;
    var looked, signed := r.Canonicalized(token, aliasAt), r.Canonical(token, aliasAt);
    var used, store := r.used.Set(Dead(signed), (), r.ttlMs, addAt), looked.aliasStore;
    RevokedAlias(r, token, aliasAt, lookAt);
    DroppedNamed(store, Backward(signed), lookAt);
    StoreNamed(looked, used, store.Got(Backward(signed), lookAt));
    if signed in looked.aliasOf || store.Get(Backward(signed), lookAt).Some? {
      var alias := Text(signed.payload.alias);
      var searched := if signed in looked.aliasOf then store else store.Got(Backward(signed), lookAt);
      GotValid(store, Backward(signed), lookAt);
      DroppedNamed(searched, Forward(alias), lookAt);
      DroppedNamed(searched.Delete(Forward(alias)), Backward(signed), lookAt);
      ForgottenNamed(looked.(used := used), signed, searched.Delete(Forward(alias)).Delete(Backward(signed)));
    }
  }

  lemma IssuedNamed(r: Registry, payload: Payload, ttlMs: int, forwardAt: int, backwardAt: int)
    requires r.Valid() && Named(r)
    ensures Named(r.Issued(payload, ttlMs, forwardAt, backwardAt))
  {
    hide Store.Set;
    var token, alias := Signed(payload), Text(payload.alias);
    SetNamed(r.aliasStore, Forward(alias), token, ttlMs, forwardAt);
    SetNamed(r.aliasStore.Set(Forward(alias), token, ttlMs, forwardAt), Backward(token), alias, ttlMs, backwardAt);
  }

  lemma ResolvedNamed(r: Registry, token: Token, userId: string, now: int, t: Clock)
    requires r.Valid() && Named(r)
    ensures Named(r.Resolved(token, userId, now, t))
  {
    hide Named;
    hide NamedStore;
    hide Registry.Canonical;
    hide Registry.Canonicalized;
    hide Registry.Admitted;
    hide Store.Set;
    var looked, signed := r.Canonicalized(token, t.aliasAt), r.Canonical(token, t.aliasAt);
    RevokedAlias(r, token, t.aliasAt, t.aliasAt);
    CanonicalizedValid(r, token, t.aliasAt);
    RevokedAlias(looked, signed, t.aliasAgainAt, t.aliasAgainAt);
    var again := looked.Canonicalized(signed, t.aliasAgainAt);
    StoreNamed(again, r.Resolved(token, userId, now, t).used, again.aliasStore);
    StoreNamed(again, looked.Peeked(signed, t.aliasAgainAt, t.peekAt).used, again.aliasStore);
  }

  lemma EventNamed(r: Registry, ev: Event)
    requires r.Valid() && Named(r)
    ensures Named(After(r, ev))
  {
    hide Registry.Resolved;
    hide Registry.Revoked;
    hide Registry.Issued;
    match ev
    case Issue(payload, ttlMs, forwardAt, backwardAt) => IssuedNamed(r, payload, ttlMs, forwardAt, backwardAt);
    case Resolve(token, userId, now, t) => ResolvedNamed(r, token, userId, now, t);
    case Revoke(token, aliasAt, addAt, lookAt) => RevokedNamed(r, token, aliasAt, addAt, lookAt);
    case Elsewhere(key, ttlMs, at) => StoreNamed(r, r.used.Set(key, (), ttlMs, at), r.aliasStore);
  }

  /** Revoking by an alias, or by a token whose alias memory or the store still knows, forgets the alias: from
      then on it leads nowhere. */
  lemma RevokedAliasIsGone(r: Registry, token: Token, aliasAt: int, addAt: int, lookAt: int, later: int)
    requires r.Valid() && Named(r) && r.Canonical(token, aliasAt).Signed?
    requires var signed := r.Canonical(token, aliasAt);
             token.Text? || signed in r.aliasOf || r.aliasStore.Get(Backward(signed), lookAt).Some?
    ensures var alias := Text(r.Canonical(token, aliasAt).payload.alias);
            r.Revoked(token, aliasAt, addAt, lookAt).Canonical(alias, later) == alias
  {
    CanonicalizedNamed(r, token, aliasAt);
    CanonicalizedValid(r, token, aliasAt);
    GotExactly(r.aliasStore, Forward(token), aliasAt);
  }

  /** So does revoking a token that this registry issued, however much later. */
  lemma IssuedThenRevoked(r: Registry, payload: Payload, ttlMs: int, forwardAt: int, backwardAt: int,
                          aliasAt: int, addAt: int, lookAt: int, later: int)
    requires r.Valid() && Named(r)
    ensures var issued := r.Issued(payload, ttlMs, forwardAt, backwardAt); var alias := Text(payload.alias);
            issued.Revoked(Signed(payload), aliasAt, addAt, lookAt).Canonical(alias, later) == alias
  {
    hide Store.Set;
    var issued, token, alias := r.Issued(payload, ttlMs, forwardAt, backwardAt), Signed(payload), Text(payload.alias);
    EventNamed(r, Issue(payload, ttlMs, forwardAt, backwardAt));
    SetWellNamed(r.aliasStore, Forward(alias), token, ttlMs, forwardAt);
    SetWellNamed(r.aliasStore.Set(Forward(alias), token, ttlMs, forwardAt), Backward(token), alias, ttlMs, backwardAt);
    CanonicalizedValid(issued, token, aliasAt);
    RevokedAliasIsGone(issued, token, aliasAt, addAt, lookAt, later);
  }

  /** An alias reaches every registry that shares the store, until its time is up, and so does its
      revocation by the signed token. */
  lemma AliasTravels(r: Registry, other: Registry, payload: Payload, ttlMs: int, forwardAt: int, backwardAt: int, at: int)
    requires r.Valid() && other.Valid() && r.aliasStore.Roomy(forwardAt) && forwardAt <= backwardAt <= at < forwardAt + ttlMs
    requires r.aliasStore.Set(Forward(Text(payload.alias)), Signed(payload), ttlMs, forwardAt).Roomy(backwardAt)
    requires other.aliasStore == r.Issued(payload, ttlMs, forwardAt, backwardAt).aliasStore
    requires Text(payload.alias) !in other.aliases
    ensures other.Canonical(Text(payload.alias), at) == Signed(payload)
    ensures other.aliasStore.Get(Backward(Signed(payload)), at) == Some(Text(payload.alias))
  {
    var alias, token := Text(payload.alias), Signed(payload);
    SetWithRoom(r.aliasStore, Forward(alias), token, ttlMs, forwardAt);
    SetWithRoom(r.aliasStore.Set(Forward(alias), token, ttlMs, forwardAt), Backward(token), alias, ttlMs, backwardAt);
  }

  function Ran(r: Registry, events: seq<Event>): Registry
    decreases |events|
  {
    if events == [] then r else Ran(After(r, events[0]), events[1..])
  }

  /** Over any events every alias stays the one that its token carries. */
  lemma {:induction false} NamedForever(r: Registry, events: seq<Event>)
    requires r.Valid() && Named(r)
    requires forall i :: 0 <= i < |events| ==> (events[i].Resolve? ==> events[i].t.Monotone(events[i].t.aliasAt))
    ensures Named(Ran(r, events))
    decreases |events|
  {
    if events != [] {
      EventNamed(r, events[0]);
      AfterValid(r, events[0]);
      NamedForever(After(r, events[0]), events[1..]);
    }
  }
}
