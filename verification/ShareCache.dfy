/** The cache that decides whether a message needs its room key shared again.

    The class holds the engine's two fields; each synchronous segment is a method proved against a
    function on the value `Shares`. The lock lets one slow share run at a time, and the end of a sync
    response, which awaits the lock, runs before the next holder starts (`AsyncLock.OneAtATimeInOrder`);
    fast-path checks fall anywhere. Beside the cache the transition system keeps a ledger of what was
    really shared and of the device-list changes that the key machine had taken in by then, user by
    user, and the theorems compare. */
module ShareCache {
  import opened Optional
  import opened Lru
  import opened Fingerprint
  import opened Numbers

  type Room = string
  type User = Name

  datatype Policy = Policy(rotateEveryMessage: bool, maxPeers: int, rotationPeriodMessages: int,
                           rotationPeriodMs: int, reshareOnDeviceChange: bool)
  {
    predicate RotatesEveryMessage(peerCount: nat) {
      rotateEveryMessage && (maxPeers <= 0 || peerCount <= maxPeers)
    }
  }

  function FilterShareRecipients(self: User, members: seq<User>): (r: seq<User>)
    ensures forall m :: m in r <==> m in members && (self == [] || m != self)
    decreases |members|
  {
    if members == [] then []
    else
      (if self != [] && members[0] == self then [] else [members[0]]) + FilterShareRecipients(self, members[1..])
  }

  datatype ShareState = ShareState(fingerprint: Digest, sharedAt: int, messages: int)

  datatype Shares = Shares(cache: Cache<Room, ShareState>, dirty: set<User>) {

    /** A sync response with device-list changes drops every cached share. */
    function ReceiveSync(changed: seq<User>, left: seq<User>): Shares {
      Shares(if changed + left == [] then cache else cache.(entries := Ordered(map[], [])),
             dirty + (set u | u in changed) + (set u | u in left))
    }

    predicate IsFresh(policy: Policy, room: Room, peers: seq<User>, now: int) {
      && !policy.RotatesEveryMessage(|peers|)
      && cache.Has(room)
      && var state := cache.entries.values[room];
      && state.fingerprint == FingerprintSet(peers)
      && !(policy.reshareOnDeviceChange && exists p :: p in peers && p in dirty)
      && state.messages < policy.rotationPeriodMessages
      && now - state.sharedAt < policy.rotationPeriodMs
    }

    /** The check before the lock: a fresh share is charged one more message; a look-up that gets
        as far as the cache makes the room the most recently used one. */
    function FastPath(policy: Policy, room: Room, peers: seq<User>, now: int): Shares {
      if policy.RotatesEveryMessage(|peers|) || !cache.Has(room) then this
      else
        var c := cache.Get(room);
        if IsFresh(policy, room, peers, now) then
          var state := c.entries.values[room];
          this.(cache := c.(entries := c.entries.Set(room, state.(messages := state.messages + 1))))
        else this.(cache := c)
    }

    function Stale(policy: Policy, peers: seq<User>): set<User> {
      if policy.RotatesEveryMessage(|peers|) then (set p | p in peers)
      else (set p | p in peers && p in dirty)
    }

    function Finish(room: Room, peers: seq<User>, now: int): Shares {
      this.(cache := cache.Set(room, ShareState(FingerprintSet(peers), now, 1)))
    }
  }

  class CryptoEngine {
    const userId: User
    const policy: Policy
    var shareState: Cache<Room, ShareState>
    var dirtyUsers: set<User>

    function View(): Shares
      reads this
    {
      Shares(shareState, dirtyUsers)
    }

    constructor (userId: User, policy: Policy)
      ensures this.policy == policy && this.userId == userId
      ensures View() == Shares(Cache(2000, Ordered(map[], [])), {})
    {
      this.userId, this.policy := userId, policy;
      shareState, dirtyUsers := Cache(2000, Ordered(map[], [])), {};
    }

    /** `receiveSync` once its locked part is over: when that part failed nothing below it runs. */
    method ReceiveSync(changed: seq<User>, left: seq<User>, locked: bool) returns (ok: bool)
      modifies this
      ensures ok == locked
      ensures View() == if locked then old(View()).ReceiveSync(changed, left) else old(View())
    {
      if !locked {
        return false;
      }
      for i := 0 to |changed|
        invariant dirtyUsers == old(dirtyUsers) + (set u | u in changed[..i])
        invariant shareState == old(shareState)
      {
        assert changed[..i + 1] == changed[..i] + [changed[i]];
        dirtyUsers := dirtyUsers + {changed[i]};
      }
      assert changed[..|changed|] == changed;
      for i := 0 to |left|
        invariant dirtyUsers == old(dirtyUsers) + (set u | u in changed) + (set u | u in left[..i])
        invariant shareState == old(shareState)
      {
        assert left[..i + 1] == left[..i] + [left[i]];
        dirtyUsers := dirtyUsers + {left[i]};
      }
      assert left[..|left|] == left;
      if |changed| > 0 || |left| > 0 {
        shareState := shareState.(entries := Ordered(map[], []));
      }
      return true;
    }

    method AnyDirty(peers: seq<User>) returns (any: bool)
      ensures any <==> exists p :: p in peers && p in dirtyUsers
    {
      for i := 0 to |peers|
        invariant forall j :: 0 <= j < i ==> peers[j] !in dirtyUsers
      {
        if peers[i] in dirtyUsers {
          return true;
        }
      }
      return false;
    }

    method ShareIsFresh(room: Room, peers: seq<User>, now: int) returns (stands: bool)
      modifies this
      ensures stands == old(View()).IsFresh(policy, room, peers, now)
      ensures dirtyUsers == old(dirtyUsers)
      ensures shareState == if policy.RotatesEveryMessage(|peers|) then old(shareState) else old(shareState).Get(room)
    {
      if policy.RotatesEveryMessage(|peers|) {
        return false;
      }
      if !shareState.Has(room) {
        return false;
      }
      var state := shareState.entries.values[room];
      shareState := shareState.Get(room);
      var digest := Compute(peers);
      if state.fingerprint != digest {
        return false;
      }
      if policy.reshareOnDeviceChange {
        var any := AnyDirty(peers);
        if any {
          return false;
        }
      }
      return state.messages < policy.rotationPeriodMessages && now - state.sharedAt < policy.rotationPeriodMs;
    }

    /** `ensureSessionsAndShare` up to its first await. */
    method EnsureFast(room: Room, userIds: seq<User>, now: int) returns (skipped: bool, peers: seq<User>)
      requires shareState.Valid()
      modifies this
      ensures peers == FilterShareRecipients(userId, userIds)
      ensures skipped == old(View()).IsFresh(policy, room, peers, now)
      ensures View() == old(View()).FastPath(policy, room, peers, now)
    {
      peers := FilterShareRecipients(userId, userIds);
      GetValid(shareState, room);
      skipped := ShareIsFresh(room, peers, now);
      if skipped {
        var state := shareState.entries.values[room];
        shareState := shareState.(entries := shareState.entries.Set(room, state.(messages := state.messages + 1)));
      }
    }

    /** Under the lock: the peers whose device lists are asked for again. */
    method StaleUsers(peers: seq<User>) returns (stale: seq<User>)
      ensures (set u | u in stale) == View().Stale(policy, peers)
    {
      if policy.RotatesEveryMessage(|peers|) {
        return peers;
      }
      stale := [];
      for i := 0 to |peers|
        invariant forall u :: u in stale <==> u in peers[..i] && u in dirtyUsers
      {
        assert peers[..i + 1] == peers[..i] + [peers[i]];
        if peers[i] in dirtyUsers {
          stale := stale + [peers[i]];
        }
      }
      assert peers[..|peers|] == peers;
    }

    /** Under the lock, after the key query: the users asked for are clean again. */
    method Refreshed(stale: seq<User>)
      modifies `dirtyUsers
      ensures View() == old(View()).(dirty := old(dirtyUsers) - (set u | u in stale))
    {
      for i := 0 to |stale|
        invariant dirtyUsers == old(dirtyUsers) - (set u | u in stale[..i])
      {
        assert stale[..i + 1] == stale[..i] + [stale[i]];
        dirtyUsers := dirtyUsers - {stale[i]};
      }
      assert stale[..|stale|] == stale;
    }

    /** The end of the locked part: remember the share, unless every key was withheld. */
    method Finish(room: Room, peers: seq<User>, keyShares: nat, withheld: nat, now: int) returns (ok: bool)
      modifies `shareState
      ensures ok == !(keyShares == 0 && withheld > 0)
      ensures View() == if ok then old(View()).Finish(room, peers, now)
                        else old(View()).(cache := old(shareState).Delete(room))
    {
      if keyShares == 0 && withheld > 0 {
        shareState := shareState.Delete(room);
        return false;
      }
      var digest := Compute(peers);
      shareState := shareState.Set(room, ShareState(digest, now, 1));
      return true;
    }
  }

  // ------------------------------------------------------------------ the ledger

  datatype Status = InFlight | Folded | Aborted

  /** A sync response with its device-list changes, from its arrival on: its locked part may be waiting
      or running, over, or failed. */
  datatype Arrival = Arrival(changed: seq<User>, left: seq<User>, status: Status) {
    predicate Empty() {
      changed + left == []
    }

    predicate Names(user: User) {
      user in changed || user in left
    }
  }

  /** The change that one response brings for one user. */
  datatype Change = Change(response: nat, user: User)

  /** What was last shared for a room: with whom, when, how many messages have used it, and the changes
      that the key machine had taken in by then. */
  datatype Entry = Entry(peers: seq<User>, at: int, uses: int, known: set<Change>)

  /** A slow share under the lock: before the stale peers are asked for, while they are, and after.
      `asked` responses had arrived when the question went out. */
  datatype Phase = Preparing | Asking(stale: set<User>, asked: nat) | Ready

  datatype Slow = Slow(room: Room, peers: seq<User>, phase: Phase)

  /** `heard`: the changes folded in, and those of users asked for again after they arrived. */
  datatype Sys = Sys(shares: Shares, slow: Option<Slow>, ledger: map<Room, Entry>, arrivals: seq<Arrival>,
                     heard: set<Change>)

  datatype Event =
    | Arrive(changed: seq<User>, left: seq<User>)
    | Fold(index: nat)
    | Abort(index: nat)
    | Send(room: Room, peers: seq<User>, now: int)
    | Begin(room: Room, peers: seq<User>)
    | Ask
    | Refresh
    | Complete(now: int)
    | Withheld
    | Fail
    | Invalidate(room: Room)

  /** A locked part ends while no slow share holds the lock; responses arrive at any time. */
  ghost predicate Enabled(s: Sys, e: Event) {
    match e
    case Arrive(_, _) => true
    case Fold(k) => s.slow.None? && k < |s.arrivals| && s.arrivals[k].status.InFlight?
    case Abort(k) => s.slow.None? && k < |s.arrivals| && s.arrivals[k].status.InFlight?
    case Send(_, _, _) => true
    case Invalidate(_) => true
    case Begin(_, _) => s.slow.None?
    case Ask => s.slow.Some? && s.slow.value.phase.Preparing?
    case Refresh => s.slow.Some? && s.slow.value.phase.Asking?
    case Complete(_) => s.slow.Some? && s.slow.value.phase.Ready?
    case Withheld => s.slow.Some? && s.slow.value.phase.Ready?
    case Fail => s.slow.Some?
  }

  ghost function ChangesOf(k: nat, a: Arrival): set<Change> {
    (set u | u in a.changed :: Change(k, u)) + (set u | u in a.left :: Change(k, u))
  }

  ghost function Answered(stale: set<User>, asked: nat): set<Change> {
    set k: nat, u | k < asked && u in stale :: Change(k, u)
  }

  ghost function Step(policy: Policy, s: Sys, e: Event): Sys
    requires Enabled(s, e)
  {
    match e
    case Arrive(changed, left) => s.(arrivals := s.arrivals + [Arrival(changed, left, InFlight)])
    case Fold(k) =>
      var a := s.arrivals[k];
      s.(shares := s.shares.ReceiveSync(a.changed, a.left), arrivals := s.arrivals[k := a.(status := Folded)],
         heard := s.heard + ChangesOf(k, a))
    case Abort(k) => s.(arrivals := s.arrivals[k := s.arrivals[k].(status := Aborted)])
    case Send(room, peers, now) =>
      s.(shares := s.shares.FastPath(policy, room, peers, now),
         ledger := if s.shares.IsFresh(policy, room, peers, now) && room in s.ledger
                   then s.ledger[room := s.ledger[room].(uses := s.ledger[room].uses + 1)] else s.ledger)
    case Begin(room, peers) => s.(slow := Some(Slow(room, peers, Preparing)))
    case Ask =>
      var slow := s.slow.value;
      s.(slow := Some(slow.(phase := Asking(s.shares.Stale(policy, slow.peers), |s.arrivals|))))
    case Refresh =>
      var slow := s.slow.value;
      s.(shares := s.shares.(dirty := s.shares.dirty - slow.phase.stale), slow := Some(slow.(phase := Ready)),
         heard := s.heard + Answered(slow.phase.stale, slow.phase.asked))
    case Complete(now) =>
      var slow := s.slow.value;
      s.(shares := s.shares.Finish(slow.room, slow.peers, now), slow := None,
         ledger := s.ledger[slow.room := Entry(slow.peers, now, 1, s.heard)])
    case Withheld => s.(shares := s.shares.(cache := s.shares.cache.Delete(s.slow.value.room)), slow := None)
    case Fail => s.(slow := None)
    case Invalidate(room) => s.(shares := s.shares.(cache := s.shares.cache.Delete(room)))
  }

  ghost predicate Runs(policy: Policy, s: Sys, es: seq<Event>)
    decreases |es|
  {
    es == [] || (Enabled(s, es[0]) && Runs(policy, Step(policy, s, es[0]), es[1..]))
  }

  ghost function Final(policy: Policy, s: Sys, es: seq<Event>): Sys
    requires Runs(policy, s, es)
    decreases |es|
  {
    if es == [] then s else Final(policy, Step(policy, s, es[0]), es[1..])
  }

  ghost const INITIAL := Sys(Shares(Cache(2000, Ordered(map[], [])), {}), None, map[], [], {})

  /** A change for a peer of the room that its share was made without. */
  ghost predicate Missed(s: Sys, room: Room, k: nat, user: User)
    requires room in s.ledger && k < |s.arrivals|
  {
    user in s.ledger[room].peers && s.arrivals[k].Names(user) && Change(k, user) !in s.ledger[room].known
  }

  /** The share was made with every device-list change of its peers that has arrived so far. */
  ghost predicate UpToDate(s: Sys, room: Room)
    requires room in s.ledger
  {
    forall k: nat, user :: k < |s.arrivals| ==> !Missed(s, room, k, user)
  }

  /** Some change of a peer that the share was made without is still in flight, or was lost with its
      response. */
  ghost predicate Outstanding(s: Sys, room: Room)
    requires room in s.ledger
  {
    exists k: nat, user :: k < |s.arrivals| && Missed(s, room, k, user)
                           && (s.arrivals[k].status.InFlight? || s.arrivals[k].status.Aborted?)
  }

  /** Every change folded in so far is among these. */
  ghost predicate Covers(arrivals: seq<Arrival>, known: set<Change>) {
    forall k: nat, user :: k < |arrivals| && arrivals[k].status.Folded? && arrivals[k].Names(user) ==>
      Change(k, user) in known
  }

  /** A cached share is the last one in the ledger, no device-list change was folded in since it was made,
      and none of its peers is dirty. */
  ghost predicate Agrees(policy: Policy, s: Sys, room: Room)
    requires s.shares.cache.Has(room)
  {
    var state := s.shares.cache.entries.values[room];
    && room in s.ledger
    && var entry := s.ledger[room];
    && state == ShareState(FingerprintSet(entry.peers), entry.at, entry.uses)
    && Covers(s.arrivals, entry.known)
    && 1 <= entry.uses <= AtLeastOne(policy.rotationPeriodMessages)
    && Members(entry.peers) !! s.shares.dirty
  }

  /** A slow share asks for every peer that is dirty, and has none left when it is ready. */
  ghost predicate SlowOk(s: Sys) {
    s.slow.Some? ==>
      var slow := s.slow.value;
      && (slow.phase.Asking? ==>
            slow.phase.asked <= |s.arrivals| && forall p :: p in slow.peers && p in s.shares.dirty ==> p in slow.phase.stale)
      && (slow.phase.Ready? ==> Members(slow.peers) !! s.shares.dirty)
  }

  ghost predicate Inv(policy: Policy, s: Sys) {
    && s.shares.cache.Valid()
    && (forall room :: s.shares.cache.Has(room) ==> Agrees(policy, s, room))
    && Covers(s.arrivals, s.heard)
    && (forall c :: c in s.heard ==> c.response < |s.arrivals|)
    && (forall room :: room in s.ledger ==> s.ledger[room].known <= s.heard)
    && SlowOk(s)
  }

  lemma SendInv(policy: Policy, s: Sys, room: Room, peers: seq<User>, now: int)
    requires Inv(policy, s)
    ensures Inv(policy, Step(policy, s, Send(room, peers, now)))
  {
    var cache := s.shares.cache;
    var t := Step(policy, s, Send(room, peers, now));
    GetValid(cache, room);
    if s.shares.IsFresh(policy, room, peers, now) {
      assert Agrees(policy, s, room);
      var state := cache.entries.values[room];
      SetValid(cache.Get(room).entries, room, state.(messages := state.messages + 1));
    }
    forall other | t.shares.cache.Has(other) ensures Agrees(policy, t, other) {
      assert cache.Has(other);
      assert Agrees(policy, s, other);
    }
  }

  lemma CompleteInv(policy: Policy, s: Sys, now: int)
    requires Inv(policy, s) && Enabled(s, Complete(now))
    ensures Inv(policy, Step(policy, s, Complete(now)))
  {
    var room, peers := s.slow.value.room, s.slow.value.peers;
    var state := ShareState(FingerprintSet(peers), now, 1);
    SetKeeps(s.shares.cache, room, state);
    var t := Step(policy, s, Complete(now));
    forall other | t.shares.cache.Has(other) ensures Agrees(policy, t, other) {
      if other != room {
        assert Agrees(policy, s, other);
      }
    }
  }

  lemma DeleteInv(policy: Policy, s: Sys, room: Room)
    requires Inv(policy, s)
    ensures Inv(policy, s.(shares := s.shares.(cache := s.shares.cache.Delete(room))))
  {
    DeleteValid(s.shares.cache.entries, room);
    var t := s.(shares := s.shares.(cache := s.shares.cache.Delete(room)));
    forall other | t.shares.cache.Has(other) ensures Agrees(policy, t, other) {
      assert Agrees(policy, s, other);
    }
  }

  lemma ArriveInv(policy: Policy, s: Sys, changed: seq<User>, left: seq<User>)
    requires Inv(policy, s)
    ensures Inv(policy, Step(policy, s, Arrive(changed, left)))
  {
    var t := Step(policy, s, Arrive(changed, left));
    assert forall known :: Covers(s.arrivals, known) ==> Covers(t.arrivals, known);
    forall other | t.shares.cache.Has(other) ensures Agrees(policy, t, other) {
      assert Agrees(policy, s, other);
    }
  }

  /** Settling a response adds to what is folded in at most its own changes. */
  lemma SettleCovers(arrivals: seq<Arrival>, known: set<Change>, more: set<Change>, k: nat, status: Status)
    requires k < |arrivals| && Covers(arrivals, known) && known <= more
    requires status.Folded? ==> ChangesOf(k, arrivals[k]) <= more
    ensures Covers(arrivals[k := arrivals[k].(status := status)], more)
  {
    var after := arrivals[k := arrivals[k].(status := status)];
    forall j: nat, user | j < |after| && after[j].status.Folded? && after[j].Names(user) ensures Change(j, user) in more {
      assert arrivals[j].Names(user);
      if j == k {
        assert Change(k, user) in ChangesOf(k, arrivals[k]);
      }
    }
  }

  lemma SettleInv(policy: Policy, s: Sys, k: nat, e: Event)
    requires Inv(policy, s) && (e == Fold(k) || e == Abort(k)) && Enabled(s, e)
    ensures Inv(policy, Step(policy, s, e))
  {
    var t := Step(policy, s, e);
    SettleCovers(s.arrivals, s.heard, t.heard, k, t.arrivals[k].status);
    if e.Abort? || s.arrivals[k].Empty() {
      assert e.Fold? ==> s.arrivals[k].changed == [] && s.arrivals[k].left == [];
      forall other | t.shares.cache.Has(other) ensures Agrees(policy, t, other) {
        assert Agrees(policy, s, other);
        SettleCovers(s.arrivals, s.ledger[other].known, s.ledger[other].known, k, t.arrivals[k].status);
      }
    }
  }

  /** Every step keeps the agreement of cache and ledger. */
  lemma StepInv(policy: Policy, s: Sys, e: Event)
    requires Inv(policy, s) && Enabled(s, e)
    ensures Inv(policy, Step(policy, s, e))
  {
    var t := Step(policy, s, e);
    match e
    case Arrive(changed, left) => ArriveInv(policy, s, changed, left);
    case Fold(k) => SettleInv(policy, s, k, e);
    case Abort(k) => SettleInv(policy, s, k, e);
    case Send(room, peers, now) => SendInv(policy, s, room, peers, now);
    case Complete(now) => CompleteInv(policy, s, now);
    case Withheld => DeleteInv(policy, s, s.slow.value.room);
    case Invalidate(room) => DeleteInv(policy, s, room);
    case _ =>
      forall other | t.shares.cache.Has(other) ensures Agrees(policy, t, other) {
        assert Agrees(policy, s, other);
      }
  }

  lemma {:induction false} RunInv(policy: Policy, s: Sys, es: seq<Event>)
    requires Inv(policy, s) && Runs(policy, s, es)
    ensures Inv(policy, Final(policy, s, es))
    decreases |es|
  {
    if es != [] {
      StepInv(policy, s, es[0]);
      RunInv(policy, Step(policy, s, es[0]), es[1..]);
    }
  }

  /** Over every run: the fast path skips a share exactly when per-message rotation is off, the room is
      cached, the peers are the set last shared with, that share has messages left and is young
      enough. No peer is dirty then, and with the present message the share is used at most
      `rotationPeriodMessages` times, or once. */
  lemma SkipsExactlyWhenShareStands(policy: Policy, es: seq<Event>, room: Room, peers: seq<User>, now: int)
    requires Runs(policy, INITIAL, es)
    ensures var s := Final(policy, INITIAL, es);
            && (s.shares.cache.Has(room) ==> Agrees(policy, s, room))
            && (s.shares.IsFresh(policy, room, peers, now) <==>
                  && !(policy.rotateEveryMessage && (policy.maxPeers <= 0 || |peers| <= policy.maxPeers))
                  && s.shares.cache.Has(room)
                  && Members(peers) == Members(s.ledger[room].peers)
                  && s.ledger[room].uses < policy.rotationPeriodMessages
                  && now - s.ledger[room].at < policy.rotationPeriodMs)
            && (s.shares.IsFresh(policy, room, peers, now) ==>
                  && Members(peers) !! s.shares.dirty
                  && s.ledger[room].uses + 1 <= AtLeastOne(policy.rotationPeriodMessages))
  {
    RunInv(policy, INITIAL, es);
    var s := Final(policy, INITIAL, es);
    if s.shares.cache.Has(room) {
      assert Agrees(policy, s, room);
      FingerprintInjective(s.ledger[room].peers, peers);
      if Members(peers) == Members(s.ledger[room].peers) {
        forall p | p in peers ensures p !in s.shares.dirty {
          assert p in Members(peers);
        }
      }
    }
  }

  /** Over every run: a skipped share was made with every device-list change of its peers that has
      arrived, exactly when none that it was made without is in flight or was lost. */
  lemma SkipIsUpToDateExactly(policy: Policy, es: seq<Event>, room: Room, peers: seq<User>, now: int)
    requires Runs(policy, INITIAL, es)
    requires Final(policy, INITIAL, es).shares.IsFresh(policy, room, peers, now)
    ensures var s := Final(policy, INITIAL, es);
            room in s.ledger && (UpToDate(s, room) <==> !Outstanding(s, room))
  {
    RunInv(policy, INITIAL, es);
    var s := Final(policy, INITIAL, es);
    assert Agrees(policy, s, room);
    if !UpToDate(s, room) {
      var k: nat, user :| k < |s.arrivals| && Missed(s, room, k, user);
      assert !s.arrivals[k].status.Folded?;
    }
  }

  lemma {:induction false} Append(policy: Policy, s: Sys, es: seq<Event>, fs: seq<Event>)
    requires Runs(policy, s, es) && Runs(policy, Final(policy, s, es), fs)
    ensures Runs(policy, s, es + fs)
    ensures Final(policy, s, es + fs) == Final(policy, Final(policy, s, es), fs)
    decreases |es|
  {
    var all := es + fs;
    if es == [] {
      assert all == fs;
    } else {
      assert all[0] == es[0] && all[1..] == es[1..] + fs;
      Append(policy, Step(policy, s, es[0]), es[1..], fs);
    }
  }

  lemma OneStep(policy: Policy, s: Sys, e: Event)
    requires Enabled(s, e)
    ensures Runs(policy, s, [e]) && Final(policy, s, [e]) == Step(policy, s, e)
  {
    assert [e][1..] == [];
  }

  ghost predicate NamesOne(changed: seq<User>, left: seq<User>, peers: seq<User>) {
    exists u :: u in peers && (u in changed || u in left)
  }

  lemma ArrivalMissed(policy: Policy, s: Sys, room: Room, changed: seq<User>, left: seq<User>)
    requires Inv(policy, s) && room in s.ledger
    ensures var t := Step(policy, s, Arrive(changed, left));
            UpToDate(t, room) <==> UpToDate(s, room) && !NamesOne(changed, left, s.ledger[room].peers)
  {
    var t, n := Step(policy, s, Arrive(changed, left)), |s.arrivals|;
    assert t.arrivals[n] == Arrival(changed, left, InFlight) && forall k: nat :: k < n ==> t.arrivals[k] == s.arrivals[k];
    if u :| u in s.ledger[room].peers && (u in changed || u in left) {
      assert Missed(t, room, n, u);
    }
    if !UpToDate(s, room) {
      var k: nat, u :| k < n && Missed(s, room, k, u);
      assert Missed(t, room, k, u);
    }
    if UpToDate(s, room) && !UpToDate(t, room) {
      var k: nat, u :| k < |t.arrivals| && Missed(t, room, k, u);
      assert k < n ==> Missed(s, room, k, u);
    }
  }

  /** A response with changes leaves a share standing until it is folded in, and out of date when it names a
      peer; a failure of its locked part leaves it standing as well. */
  lemma ChangeInFlight(policy: Policy, es: seq<Event>, room: Room, peers: seq<User>, now: int,
                       changed: seq<User>, left: seq<User>)
    requires Runs(policy, INITIAL, es) && changed + left != []
    requires Final(policy, INITIAL, es).shares.IsFresh(policy, room, peers, now)
    ensures var s := Final(policy, INITIAL, es); var n := |s.arrivals|; var arrived := es + [Arrive(changed, left)];
            && Runs(policy, INITIAL, arrived)
            && var t := Final(policy, INITIAL, arrived);
            && t.shares.IsFresh(policy, room, peers, now) && room in s.ledger && room in t.ledger
            && (UpToDate(t, room) <==> UpToDate(s, room) && !NamesOne(changed, left, peers))
            && (s.slow.None? ==>
                  && Runs(policy, INITIAL, arrived + [Abort(n)])
                  && var u := Final(policy, INITIAL, arrived + [Abort(n)]);
                  && u.shares.IsFresh(policy, room, peers, now) && room in u.ledger
                  && (UpToDate(u, room) <==> UpToDate(t, room)))
            && (s.slow.None? ==>
                  && Runs(policy, INITIAL, arrived + [Fold(n)])
                  && !Final(policy, INITIAL, arrived + [Fold(n)]).shares.IsFresh(policy, room, peers, now))
  {
    var s, arrive := Final(policy, INITIAL, es), Arrive(changed, left);
    var n, arrived, t := |s.arrivals|, es + [arrive], Step(policy, s, arrive);
    RunInv(policy, INITIAL, es);
    SkipsExactlyWhenShareStands(policy, es, room, peers, now);
    OneStep(policy, s, arrive);
    StandsAtArrival(policy, s, room, peers, now, changed, left);
    assert s.slow.None? ==> Enabled(t, Abort(n)) && Enabled(t, Fold(n));
    hide *;
    Append(policy, INITIAL, es, [arrive]);
    if s.slow.None? {
      OneStep(policy, t, Abort(n));
      OneStep(policy, t, Fold(n));
      Append(policy, INITIAL, arrived, [Abort(n)]);
      Append(policy, INITIAL, arrived, [Fold(n)]);
      AbortMissed(policy, t, room, n);
      StandsUntilFolded(policy, t, room, peers, now, n);
    }
  }

  lemma StandsAtArrival(policy: Policy, s: Sys, room: Room, peers: seq<User>, now: int,
                        changed: seq<User>, left: seq<User>)
    requires Inv(policy, s) && s.shares.IsFresh(policy, room, peers, now)
    requires room in s.ledger && Members(peers) == Members(s.ledger[room].peers)
    ensures var t := Step(policy, s, Arrive(changed, left));
            && t.shares == s.shares && t.ledger == s.ledger && t.slow == s.slow
            && t.arrivals == s.arrivals + [Arrival(changed, left, InFlight)]
            && (UpToDate(t, room) <==> UpToDate(s, room) && !NamesOne(changed, left, peers))
  {
    ArrivalMissed(policy, s, room, changed, left);
    SamePeers(changed, left, peers, s.ledger[room].peers);
  }

  lemma StandsUntilFolded(policy: Policy, s: Sys, room: Room, peers: seq<User>, now: int, n: nat)
    requires Enabled(s, Abort(n)) && Enabled(s, Fold(n))
    requires s.shares.IsFresh(policy, room, peers, now)
    ensures Step(policy, s, Abort(n)).shares == s.shares && Step(policy, s, Abort(n)).ledger == s.ledger
    ensures s.arrivals[n].changed + s.arrivals[n].left != [] ==>
              !Step(policy, s, Fold(n)).shares.IsFresh(policy, room, peers, now)
  {
  }

  lemma SamePeers(changed: seq<User>, left: seq<User>, peers: seq<User>, others: seq<User>)
    requires Members(peers) == Members(others)
    ensures NamesOne(changed, left, peers) <==> NamesOne(changed, left, others)
  {
    assert forall u :: u in peers <==> u in Members(peers);
    assert forall u :: u in others <==> u in Members(others);
  }

  lemma AbortMissed(policy: Policy, s: Sys, room: Room, n: nat)
    requires Enabled(s, Abort(n)) && room in s.ledger
    ensures UpToDate(Step(policy, s, Abort(n)), room) <==> UpToDate(s, room)
  {
    var t := Step(policy, s, Abort(n));
    forall k: nat, u | k < |s.arrivals| ensures Missed(t, room, k, u) <==> Missed(s, room, k, u) {
      assert t.arrivals[k].Names(u) <==> s.arrivals[k].Names(u);
    }
  }

  /** A check that gets as far as the cache makes the room the last to be forgotten, skipped or not. */
  lemma CheckRefreshes(policy: Policy, s: Sys, room: Room, peers: seq<User>, now: int)
    requires Inv(policy, s) && s.shares.cache.Has(room)
    requires !(policy.rotateEveryMessage && (policy.maxPeers <= 0 || |peers| <= policy.maxPeers))
    ensures var order := Step(policy, s, Send(room, peers, now)).shares.cache.entries.order;
            order != [] && order[|order| - 1] == room
  {
    WithoutFacts(s.shares.cache.entries.order, room);
  }

  // ------------------------------------------------------------------ what the next share knows

  /** A slow share without interruption. */
  ghost function Sharing(room: Room, peers: seq<User>, now: int): seq<Event> {
    [Begin(room, peers), Ask, Refresh, Complete(now)]
  }

  ghost function Shared(policy: Policy, s: Sys, room: Room, peers: seq<User>, now: int): Sys {
    var stale := s.shares.Stale(policy, peers);
    var heard := s.heard + Answered(stale, |s.arrivals|);
    Sys(s.shares.(dirty := s.shares.dirty - stale).Finish(room, peers, now), None,
        s.ledger[room := Entry(peers, now, 1, heard)], s.arrivals, heard)
  }

  lemma SharingRuns(policy: Policy, s: Sys, room: Room, peers: seq<User>, now: int)
    requires s.slow.None?
    ensures Runs(policy, s, Sharing(room, peers, now))
    ensures Final(policy, s, Sharing(room, peers, now)) == Shared(policy, s, room, peers, now)
  {
    var s1 := Step(policy, s, Begin(room, peers));
    var s2 := Step(policy, s1, Ask);
    var s3 := Step(policy, s2, Refresh);
    OneStep(policy, s, Begin(room, peers));
    OneStep(policy, s1, Ask);
    OneStep(policy, s2, Refresh);
    OneStep(policy, s3, Complete(now));
    Append(policy, s, [Begin(room, peers)], [Ask]);
    Append(policy, s, [Begin(room, peers)] + [Ask], [Refresh]);
    Append(policy, s, [Begin(room, peers)] + [Ask] + [Refresh], [Complete(now)]);
    assert [Begin(room, peers)] + [Ask] + [Refresh] + [Complete(now)] == Sharing(room, peers, now);
    assert Step(policy, s3, Complete(now)) == Shared(policy, s, room, peers, now);
  }

  /** A share made now knows a change of a peer exactly when it has been folded in or asked for since, or
      the peer is asked for now: it is dirty, or every message rotates. */
  lemma ShareKnowsExactly(policy: Policy, s: Sys, room: Room, peers: seq<User>, now: int, k: nat, user: User)
    requires s.slow.None? && k < |s.arrivals| && user in peers && s.arrivals[k].Names(user)
    ensures Runs(policy, s, Sharing(room, peers, now))
    ensures var t := Final(policy, s, Sharing(room, peers, now));
            && room in t.ledger && t.arrivals == s.arrivals
            && (!Missed(t, room, k, user)
                <==> || Change(k, user) in s.heard || user in s.shares.dirty
                     || (policy.rotateEveryMessage && (policy.maxPeers <= 0 || |peers| <= policy.maxPeers)))
  {
    SharingRuns(policy, s, room, peers, now);
    var stale := s.shares.Stale(policy, peers);
    assert Change(k, user) in Answered(stale, |s.arrivals|) <==> user in stale;
  }

  /** A change that nothing will ask for: it was not taken in, and its user is not dirty. */
  ghost predicate Lost(s: Sys, k: nat, user: User) {
    && k < |s.arrivals| && s.arrivals[k].Names(user) && Change(k, user) !in s.heard && user !in s.shares.dirty
    && (s.slow.Some? && s.slow.value.phase.Asking? ==> user !in s.slow.value.phase.stale)
  }

  /** No response that names the user is folded in. */
  ghost predicate Unnamed(policy: Policy, s: Sys, es: seq<Event>, user: User)
    requires Runs(policy, s, es)
    decreases |es|
  {
    es == [] || (!(es[0].Fold? && s.arrivals[es[0].index].Names(user))
                 && Unnamed(policy, Step(policy, s, es[0]), es[1..], user))
  }

  lemma LostStep(policy: Policy, s: Sys, e: Event, k: nat, user: User)
    requires !policy.rotateEveryMessage && Lost(s, k, user)
    requires Enabled(s, e) && !(e.Fold? && s.arrivals[e.index].Names(user))
    ensures Lost(Step(policy, s, e), k, user)
  {
    var t := Step(policy, s, e);
    assert t.arrivals[k].Names(user);
  }

  lemma {:induction false} LostRun(policy: Policy, s: Sys, es: seq<Event>, k: nat, user: User)
    requires !policy.rotateEveryMessage && Lost(s, k, user) && Runs(policy, s, es) && Unnamed(policy, s, es, user)
    ensures Lost(Final(policy, s, es), k, user)
    decreases |es|
  {
    if es != [] {
      LostStep(policy, s, es[0], k, user);
      LostRun(policy, Step(policy, s, es[0]), es[1..], k, user);
    }
  }

  /** Without rotation at every message: a change that was lost stays missing from every share with its
      user, whatever happens, until a response that names the user is folded in. */
  lemma LostUntilNamedAgain(policy: Policy, es: seq<Event>, more: seq<Event>, k: nat, user: User, room: Room)
    requires !policy.rotateEveryMessage && Runs(policy, INITIAL, es) && Lost(Final(policy, INITIAL, es), k, user)
    requires Runs(policy, Final(policy, INITIAL, es), more) && Unnamed(policy, Final(policy, INITIAL, es), more, user)
    ensures Runs(policy, INITIAL, es + more)
    ensures var t := Final(policy, INITIAL, es + more);
            room in t.ledger && user in t.ledger[room].peers ==> !UpToDate(t, room)
  {
    Append(policy, INITIAL, es, more);
    RunInv(policy, INITIAL, es + more);
    LostRun(policy, Final(policy, INITIAL, es), more, k, user);
    var t := Final(policy, INITIAL, es + more);
    if room in t.ledger && user in t.ledger[room].peers {
      assert Missed(t, room, k, user);
    }
  }

  // ------------------------------------------------------------------ a new device

  lemma SharedIsFresh(policy: Policy, s: Sys, room: Room, peer: User)
    requires Inv(policy, s) && s.slow.None?
    requires !policy.rotateEveryMessage && policy.rotationPeriodMessages > 1 && policy.rotationPeriodMs > 0
    ensures Shared(policy, s, room, [peer], 0).shares.IsFresh(policy, room, [peer], 0)
  {
    var stale := s.shares.Stale(policy, [peer]);
    SetKeeps(s.shares.cache, room, ShareState(FingerprintSet([peer]), 0, 1));
    assert forall p :: p in [peer] && p in s.shares.dirty ==> p in stale;
  }

  /** The key is shared with a peer; a response brings the peer's new device; while its locked part runs,
      or after it failed, a message skips sharing. */
  lemma NewDeviceMissed(policy: Policy, room: Room, peer: User)
    requires !policy.rotateEveryMessage && policy.rotationPeriodMessages > 1 && policy.rotationPeriodMs > 0
    ensures var arrived := Sharing(room, [peer], 0) + [Arrive([peer], [])];
            && Runs(policy, INITIAL, arrived) && Runs(policy, INITIAL, arrived + [Abort(0)])
            && var s, t := Final(policy, INITIAL, arrived), Final(policy, INITIAL, arrived + [Abort(0)]);
            && s.shares.IsFresh(policy, room, [peer], 0) && room in s.ledger && !UpToDate(s, room)
            && t.shares.IsFresh(policy, room, [peer], 0) && room in t.ledger && !UpToDate(t, room)
  {
    SharingRuns(policy, INITIAL, room, [peer], 0);
    SharedIsFresh(policy, INITIAL, room, peer);
    ChangeInFlight(policy, Sharing(room, [peer], 0), room, [peer], 0, [peer], []);
    assert peer in [peer] && NamesOne([peer], [], [peer]);
  }

  /** After any run: a response that brings a clean peer's new device fails, and the next share, begun after
      that, asks nobody and lacks the device; the messages that follow skip sharing. */
  lemma NextShareMissesIt(policy: Policy, es: seq<Event>, room: Room, peer: User)
    requires !policy.rotateEveryMessage && policy.rotationPeriodMessages > 1 && policy.rotationPeriodMs > 0
    requires Runs(policy, INITIAL, es)
    requires Final(policy, INITIAL, es).slow.None? && peer !in Final(policy, INITIAL, es).shares.dirty
    ensures var n := |Final(policy, INITIAL, es).arrivals|;
            var failed := es + [Arrive([peer], [])] + [Abort(n)];
            && Runs(policy, INITIAL, failed) && Final(policy, INITIAL, failed).shares.Stale(policy, [peer]) == {}
            && Runs(policy, INITIAL, failed + Sharing(room, [peer], 0))
            && var t := Final(policy, INITIAL, failed + Sharing(room, [peer], 0));
            && t.shares.IsFresh(policy, room, [peer], 0) && room in t.ledger && !UpToDate(t, room)
  {
    var s := Final(policy, INITIAL, es);
    var n, arrive := |s.arrivals|, Arrive([peer], []);
    OneStep(policy, s, arrive);
    Append(policy, INITIAL, es, [arrive]);
    var s1 := Step(policy, s, arrive);
    OneStep(policy, s1, Abort(n));
    Append(policy, INITIAL, es + [arrive], [Abort(n)]);
    var failed, u := es + [arrive] + [Abort(n)], Step(policy, s1, Abort(n));
    RunInv(policy, INITIAL, es);
    RunInv(policy, INITIAL, failed);
    assert Change(n, peer) !in u.heard && u.arrivals[n].Names(peer);
    assert u.shares.Stale(policy, [peer]) == {};
    hide Runs;
    hide Final;
    hide Inv;
    ShareKnowsExactly(policy, u, room, [peer], 0, n, peer);
    SharingRuns(policy, u, room, [peer], 0);
    Append(policy, INITIAL, failed, Sharing(room, [peer], 0));
    SharedIsFresh(policy, u, room, peer);
    assert Missed(Final(policy, INITIAL, failed + Sharing(room, [peer], 0)), room, n, peer);
  }
}
