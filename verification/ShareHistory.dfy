/** The share cache and the dirty users told from the history of a run: which shares were completed, what
    dropped them since, and which responses named whom. */
module ShareHistory {
  import opened Optional
  import opened Lru
  import opened Fingerprint
  import opened ShareCache

  // ------------------------------------------------------------------ runs, event by event

  lemma {:induction false} PrefixRuns(policy: Policy, s: Sys, es: seq<Event>, n: nat)
    requires n <= |es| && Runs(policy, s, es)
    ensures Runs(policy, s, es[..n])
    ensures n < |es| ==> Enabled(Final(policy, s, es[..n]), es[n])
    decreases n
  {
    if n > 0 {
      assert es[..n][1..] == es[1..][..n - 1] && es[..n][0] == es[0];
      PrefixRuns(policy, Step(policy, s, es[0]), es[1..], n - 1);
      if n < |es| {
        assert es[1..][n - 1] == es[n];
      }
    }
  }

  /** The state before event `n`. */
  ghost function At(policy: Policy, es: seq<Event>, n: nat): Sys
    requires n <= |es| && Runs(policy, INITIAL, es)
  {
    PrefixRuns(policy, INITIAL, es, n);
    Final(policy, INITIAL, es[..n])
  }

  lemma AtStep(policy: Policy, es: seq<Event>, n: nat)
    requires n < |es| && Runs(policy, INITIAL, es)
    ensures Enabled(At(policy, es, n), es[n])
    ensures At(policy, es, n + 1) == Step(policy, At(policy, es, n), es[n])
  {
    hide Enabled;
    hide Step;
    PrefixRuns(policy, INITIAL, es, n);
    var s := Final(policy, INITIAL, es[..n]);
    OneStep(policy, s, es[n]);
    Append(policy, INITIAL, es[..n], [es[n]]);
    assert es[..n] + [es[n]] == es[..n + 1];
  }

  lemma AtInv(policy: Policy, es: seq<Event>, n: nat)
    requires n <= |es| && Runs(policy, INITIAL, es)
    ensures Inv(policy, At(policy, es, n))
  {
    hide Inv;
    PrefixRuns(policy, INITIAL, es, n);
    InitInv(policy);
    RunInv(policy, INITIAL, es[..n]);
  }

  lemma InitInv(policy: Policy)
    ensures Inv(policy, INITIAL)
  {
  }

  lemma AtStart(policy: Policy, es: seq<Event>)
    requires Runs(policy, INITIAL, es)
    ensures At(policy, es, 0) == INITIAL
  {
  }

  lemma AtEnd(policy: Policy, es: seq<Event>)
    requires Runs(policy, INITIAL, es)
    ensures At(policy, es, |es|) == Final(policy, INITIAL, es)
  {
    assert es[..|es|] == es;
  }

  // ------------------------------------------------------------------ who holds the lock

  ghost predicate Ends(e: Event) {
    e.Complete? || e.Withheld? || e.Fail?
  }

  /** The slow share begun at `b` is still running before event `n`. */
  ghost predicate Holds(es: seq<Event>, b: nat, n: nat)
    requires n <= |es|
  {
    b < n && es[b].Begin? && forall i :: b < i < n ==> !Ends(es[i])
  }

  lemma {:induction false} HolderIs(policy: Policy, es: seq<Event>, b: nat, n: nat)
    requires n <= |es| && Runs(policy, INITIAL, es) && Holds(es, b, n)
    ensures var slow := At(policy, es, n).slow;
            slow.Some? && slow.value.room == es[b].room && slow.value.peers == es[b].peers
    decreases n
  {
    AtStep(policy, es, n - 1);
    if b < n - 1 {
      HolderIs(policy, es, b, n - 1);
    }
  }

  lemma {:induction false} HasHolder(policy: Policy, es: seq<Event>, n: nat) returns (b: nat)
    requires n <= |es| && Runs(policy, INITIAL, es) && At(policy, es, n).slow.Some?
    ensures Holds(es, b, n)
    ensures var slow := At(policy, es, n).slow; slow.value.room == es[b].room && slow.value.peers == es[b].peers
    decreases n
  {
    if n == 0 {
      AtStart(policy, es);
      assert false;
    }
    AtStep(policy, es, n - 1);
    if es[n - 1].Begin? {
      b := n - 1;
    } else {
      b := HasHolder(policy, es, n - 1);
    }
  }

  // ------------------------------------------------------------------ dirty users

  /** Event `j` folds in a response that names the user. */
  ghost predicate FoldsIn(policy: Policy, es: seq<Event>, j: nat, user: User)
    requires j < |es| && Runs(policy, INITIAL, es)
  {
    && es[j].Fold?
    && var arrivals := At(policy, es, j).arrivals;
    es[j].index < |arrivals| && arrivals[es[j].index].Names(user)
  }

  /** Event `i` ends the question about the peers of a share, the user among them. */
  ghost predicate AsksFor(es: seq<Event>, i: nat, user: User)
    requires i < |es|
  {
    es[i].Refresh? && exists b :: 0 <= b < i && Holds(es, b, i) && user in es[b].peers
  }

  ghost predicate NamedSince(policy: Policy, es: seq<Event>, n: nat, user: User)
    requires n <= |es| && Runs(policy, INITIAL, es)
  {
    exists j :: 0 <= j < n && FoldsIn(policy, es, j, user) && forall i :: j < i < n ==> !AsksFor(es, i, user)
  }

  /** Only peers are asked for. */
  lemma {:induction false} StaleArePeers(policy: Policy, es: seq<Event>, n: nat, user: User)
    requires n <= |es| && Runs(policy, INITIAL, es)
    ensures var slow := At(policy, es, n).slow;
            slow.Some? && slow.value.phase.Asking? && user in slow.value.phase.stale ==> user in slow.value.peers
    decreases n
  {
    if n > 0 {
      AtStep(policy, es, n - 1);
      StaleArePeers(policy, es, n - 1, user);
    } else {
      AtStart(policy, es);
    }
  }

  lemma DirtyStep(policy: Policy, es: seq<Event>, n: nat, user: User)
    requires n < |es| && Runs(policy, INITIAL, es)
    ensures user in At(policy, es, n + 1).shares.dirty
            <==> FoldsIn(policy, es, n, user) || (user in At(policy, es, n).shares.dirty && !AsksFor(es, n, user))
  {
    AtStep(policy, es, n);
    AtInv(policy, es, n);
    var s := At(policy, es, n);
    if es[n].Refresh? {
      var b := HasHolder(policy, es, n);
      StaleArePeers(policy, es, n, user);
      if AsksFor(es, n, user) {
        var c :| 0 <= c < n && Holds(es, c, n) && user in es[c].peers;
        HolderIs(policy, es, c, n);
      }
    }
  }

  /** Over every run: a user is dirty exactly when a response that names the user was folded in and no share
      with the user has asked for the peers since. */
  lemma {:induction false} DirtyExactly(policy: Policy, es: seq<Event>, n: nat, user: User)
    requires n <= |es| && Runs(policy, INITIAL, es)
    ensures user in At(policy, es, n).shares.dirty <==> NamedSince(policy, es, n, user)
    decreases n
  {
    if n == 0 {
      AtStart(policy, es);
    } else {
      DirtyExactly(policy, es, n - 1, user);
      DirtyStep(policy, es, n - 1, user);
      if NamedSince(policy, es, n - 1, user) && !AsksFor(es, n - 1, user) {
        var j :| 0 <= j < n - 1 && FoldsIn(policy, es, j, user) && forall i :: j < i < n - 1 ==> !AsksFor(es, i, user);
        assert forall i :: j < i < n ==> !AsksFor(es, i, user);
      }
    }
  }

  // ------------------------------------------------------------------ responses

  lemma SettledStep(policy: Policy, es: seq<Event>, n: nat, k: nat)
    requires n < |es| && Runs(policy, INITIAL, es)
    ensures var was, now := At(policy, es, n).arrivals, At(policy, es, n + 1).arrivals;
            && (k < |was| ==>
                  && k < |now|
                  && (now[k].status.Folded? <==> was[k].status.Folded? || es[n] == Fold(k))
                  && (now[k].status.Aborted? <==> was[k].status.Aborted? || es[n] == Abort(k)))
            && (k >= |was| ==> es[n] != Fold(k) && es[n] != Abort(k) && (k < |now| ==> now[k].status.InFlight?))
  {
    AtStep(policy, es, n);
  }

  /** A response is folded in or failed exactly when such an event names it; it is in flight before that. */
  lemma {:induction false} SettledExactly(policy: Policy, es: seq<Event>, n: nat, k: nat)
    requires n <= |es| && Runs(policy, INITIAL, es) && k < |At(policy, es, n).arrivals|
    ensures var status := At(policy, es, n).arrivals[k].status;
            && (status.Folded? <==> exists i :: 0 <= i < n && es[i] == Fold(k))
            && (status.Aborted? <==> exists i :: 0 <= i < n && es[i] == Abort(k))
    decreases n
  {
    if n == 0 {
      AtStart(policy, es);
    } else {
      hide *;
      SettledStep(policy, es, n - 1, k);
      if k < |At(policy, es, n - 1).arrivals| {
        SettledExactly(policy, es, n - 1, k);
      } else {
        NotYetSettled(policy, es, n - 1, k);
      }
    }
  }

  lemma {:induction false} NotYetSettled(policy: Policy, es: seq<Event>, n: nat, k: nat)
    requires n <= |es| && Runs(policy, INITIAL, es) && k >= |At(policy, es, n).arrivals|
    ensures forall i :: 0 <= i < n ==> es[i] != Fold(k) && es[i] != Abort(k)
    decreases n
  {
    if n > 0 {
      hide *;
      SettledStep(policy, es, n - 1, k);
      NotYetSettled(policy, es, n - 1, k);
    }
  }

  // ------------------------------------------------------------------ shares

  /** Event `j` completes the share of the room begun at `b`. */
  ghost predicate Completes(es: seq<Event>, b: nat, j: nat, room: Room)
    requires j < |es|
  {
    es[j].Complete? && Holds(es, b, j) && es[b].room == room
  }

  /** Event `i` ends what a share of the room left: another share, one that was withheld, a response with
      changes for anybody, or a call that drops it. */
  ghost predicate Drops(policy: Policy, es: seq<Event>, i: nat, room: Room)
    requires i < |es| && Runs(policy, INITIAL, es)
  {
    match es[i]
    case Complete(_) => exists b :: 0 <= b < i && Holds(es, b, i) && es[b].room == room
    case Withheld => exists b :: 0 <= b < i && Holds(es, b, i) && es[b].room == room
    case Invalidate(r) => r == room
    case Fold(k) => exists user :: FoldsIn(policy, es, i, user)
    case _ => false
  }

  /** The share begun at `b` and completed at `j` is the room's last, and nothing dropped it since. */
  ghost predicate Stands(policy: Policy, es: seq<Event>, b: nat, j: nat, n: nat, room: Room)
    requires n <= |es| && Runs(policy, INITIAL, es)
  {
    j < n && Completes(es, b, j, room) && forall i :: j < i < n ==> !Drops(policy, es, i, room)
  }

  /** Does event `i` send a message in the room without sharing its key? */
  ghost predicate Skips(policy: Policy, es: seq<Event>, i: nat, room: Room)
    requires i < |es| && Runs(policy, INITIAL, es)
  {
    && es[i].Send? && es[i].room == room
    && At(policy, es, i).shares.IsFresh(policy, room, es[i].peers, es[i].now)
  }

  ghost function Skipped(policy: Policy, es: seq<Event>, from: nat, n: nat, room: Room): nat
    requires from <= n <= |es| && Runs(policy, INITIAL, es)
    decreases n
  {
    if from == n then 0
    else Skipped(policy, es, from, n - 1, room) + if Skips(policy, es, n - 1, room) then 1 else 0
  }

  /** An event that does not drop a room's share leaves its ledger entry, but for a message that skips. */
  lemma LedgerStep(policy: Policy, es: seq<Event>, n: nat, room: Room)
    requires n < |es| && Runs(policy, INITIAL, es) && room in At(policy, es, n).ledger && !Drops(policy, es, n, room)
    ensures var was := At(policy, es, n).ledger[room]; var ledger := At(policy, es, n + 1).ledger;
            room in ledger && ledger[room] == was.(uses := was.uses + if Skips(policy, es, n, room) then 1 else 0)
  {
    AtStep(policy, es, n);
    if es[n].Complete? {
      var c := HasHolder(policy, es, n);
      assert es[c].room != room;
    }
  }

  /** While a share stands, the ledger shows it with the messages that used it. */
  lemma {:induction false} StandingIsLedger(policy: Policy, es: seq<Event>, b: nat, j: nat, n: nat, room: Room)
    requires n <= |es| && Runs(policy, INITIAL, es) && Stands(policy, es, b, j, n, room)
    ensures var s := At(policy, es, n);
            && room in s.ledger && s.ledger[room].peers == es[b].peers && s.ledger[room].at == es[j].now
            && s.ledger[room].uses == 1 + Skipped(policy, es, j + 1, n, room)
    decreases n
  {
    if j == n - 1 {
      AtStep(policy, es, j);
      HolderIs(policy, es, b, j);
    } else {
      hide At;
      hide Skips;
      hide Drops;
      StandingIsLedger(policy, es, b, j, n - 1, room);
      LedgerStep(policy, es, n - 1, room);
    }
  }

  /** A cached room has a share that stands. */
  lemma {:induction false} CachedStands(policy: Policy, es: seq<Event>, n: nat, room: Room) returns (b: nat, j: nat)
    requires n <= |es| && Runs(policy, INITIAL, es) && At(policy, es, n).shares.cache.Has(room)
    ensures Stands(policy, es, b, j, n, room)
    decreases n
  {
    if n == 0 {
      AtStart(policy, es);
      assert false;
    }
    var s := At(policy, es, n - 1);
    AtStep(policy, es, n - 1);
    AtInv(policy, es, n - 1);
    NeedsHolder(s, es[n - 1]);
    hide *;
    if es[n - 1].Complete? && s.slow.value.room == room {
      b := HasHolder(policy, es, n - 1);
      j := n - 1;
      NowStands(policy, es, b, n, room);
    } else {
      KeepsHas(policy, s, es[n - 1], room);
      b, j := CachedStands(policy, es, n - 1, room);
      NotDropped(policy, es, n - 1, room);
      StillStands(policy, es, b, j, n, room);
    }
  }

  lemma NeedsHolder(s: Sys, e: Event)
    requires Enabled(s, e)
    ensures e.Complete? ==> s.slow.Some?
  {
  }

  lemma NowStands(policy: Policy, es: seq<Event>, b: nat, n: nat, room: Room)
    requires 0 < n <= |es| && Runs(policy, INITIAL, es) && es[n - 1].Complete? && Holds(es, b, n - 1)
    requires es[b].room == room
    ensures Stands(policy, es, b, n - 1, n, room)
  {
    hide Drops;
  }

  lemma StillStands(policy: Policy, es: seq<Event>, b: nat, j: nat, n: nat, room: Room)
    requires 0 < n <= |es| && Runs(policy, INITIAL, es) && Stands(policy, es, b, j, n - 1, room)
    requires !Drops(policy, es, n - 1, room)
    ensures Stands(policy, es, b, j, n, room)
  {
    hide Drops;
  }

  /** Only a completed share brings a room into the cache. */
  lemma KeepsHas(policy: Policy, s: Sys, e: Event, room: Room)
    requires Inv(policy, s) && Enabled(s, e) && Step(policy, s, e).shares.cache.Has(room)
    requires !(e.Complete? && s.slow.value.room == room)
    ensures s.shares.cache.Has(room)
  {
    if e.Complete? {
      var peers := s.slow.value.peers;
      SetKeeps(s.shares.cache, s.slow.value.room, ShareState(FingerprintSet(peers), e.now, 1));
    } else if e.Send? {
      GetValid(s.shares.cache, e.room);
    }
  }

  lemma NotDropped(policy: Policy, es: seq<Event>, n: nat, room: Room)
    requires n < |es| && Runs(policy, INITIAL, es) && At(policy, es, n + 1).shares.cache.Has(room)
    requires es[n].Complete? && At(policy, es, n).slow.Some? ==> At(policy, es, n).slow.value.room != room
    ensures !Drops(policy, es, n, room)
  {
    var s := At(policy, es, n);
    AtStep(policy, es, n);
    if es[n].Complete? || es[n].Withheld? {
      if b :| 0 <= b < n && Holds(es, b, n) && es[b].room == room {
        HolderIs(policy, es, b, n);
      }
    } else if es[n].Fold? {
      NothingNamed(s.arrivals[es[n].index]);
    }
  }

  lemma NothingNamed(a: Arrival)
    ensures a.Empty() ==> forall user :: !a.Names(user)
  {
  }

  /** No more rooms have a share than the cache holds. */
  ghost predicate FewRooms(es: seq<Event>, rooms: set<Room>) {
    |rooms| <= 2000 && forall e :: e in es && e.Begin? ==> e.room in rooms
  }

  lemma {:induction false} CapacityIs(policy: Policy, es: seq<Event>, n: nat)
    requires n <= |es| && Runs(policy, INITIAL, es)
    ensures At(policy, es, n).shares.cache.capacity == 2000
    decreases n
  {
    if n > 0 {
      AtStep(policy, es, n - 1);
      CapacityIs(policy, es, n - 1);
    } else {
      AtStart(policy, es);
    }
  }

  lemma KeysAreFew(policy: Policy, es: seq<Event>, n: nat, rooms: set<Room>)
    requires n <= |es| && Runs(policy, INITIAL, es) && FewRooms(es, rooms)
    ensures At(policy, es, n).shares.cache.entries.values.Keys <= rooms
  {
    forall room | room in At(policy, es, n).shares.cache.entries.values ensures room in rooms {
      var b, j := CachedStands(policy, es, n, room);
      assert es[b] in es;
    }
  }

  lemma CompletedIsCached(policy: Policy, es: seq<Event>, n: nat, room: Room, rooms: set<Room>)
    requires n < |es| && Runs(policy, INITIAL, es) && FewRooms(es, rooms) && es[n].Complete?
    requires At(policy, es, n).slow.Some?
    requires At(policy, es, n).slow.value.room == room || At(policy, es, n).shares.cache.Has(room)
    ensures At(policy, es, n + 1).shares.cache.Has(room)
  {
    var s := At(policy, es, n);
    AtStep(policy, es, n);
    AtInv(policy, es, n);
    CapacityIs(policy, es, n);
    KeysAreFew(policy, es, n, rooms);
    var b := HasHolder(policy, es, n);
    assert es[b] in es;
    hide At;
    hide Runs;
    FewKeysNoEviction(s.shares.cache, es[b].room, ShareState(FingerprintSet(s.slow.value.peers), es[n].now, 1), rooms);
  }

  lemma StaysCached(policy: Policy, es: seq<Event>, n: nat, room: Room)
    requires n < |es| && Runs(policy, INITIAL, es) && At(policy, es, n).shares.cache.Has(room)
    requires !es[n].Complete? && !Drops(policy, es, n, room)
    ensures At(policy, es, n + 1).shares.cache.Has(room)
  {
    var s := At(policy, es, n);
    AtStep(policy, es, n);
    AtInv(policy, es, n);
    match es[n]
    case Withheld =>
      var b := HasHolder(policy, es, n);
      assert es[b].room != room;
      DeleteValid(s.shares.cache.entries, es[b].room);
    case Invalidate(r) => DeleteValid(s.shares.cache.entries, r);
    case Fold(k) =>
      if !s.arrivals[k].Empty() {
        SomebodyNamed(s.arrivals[k]);
        var user :| s.arrivals[k].Names(user);
        assert FoldsIn(policy, es, n, user);
      }
    case Send(r, _, _) => GetValid(s.shares.cache, r);
    case _ =>
  }

  lemma SomebodyNamed(a: Arrival)
    requires !a.Empty()
    ensures exists user :: a.Names(user)
  {
    var all := a.changed + a.left;
    assert a.Names(all[0]);
  }

  /** With no more rooms than the cache holds, a share that stands is cached. */
  lemma {:induction false} StandsIsCached(policy: Policy, es: seq<Event>, b: nat, j: nat, n: nat, room: Room, rooms: set<Room>)
    requires n <= |es| && Runs(policy, INITIAL, es) && FewRooms(es, rooms) && Stands(policy, es, b, j, n, room)
    ensures At(policy, es, n).shares.cache.Has(room)
    decreases n
  {
    hide *;
    LastIs(policy, es, b, j, n, room);
    if j == n - 1 {
      CompletedIsCached(policy, es, j, room, rooms);
    } else {
      StandsIsCached(policy, es, b, j, n - 1, room, rooms);
      if es[n - 1].Complete? {
        CompletedIsCached(policy, es, n - 1, room, rooms);
      } else {
        StaysCached(policy, es, n - 1, room);
      }
    }
  }

  lemma LastIs(policy: Policy, es: seq<Event>, b: nat, j: nat, n: nat, room: Room)
    requires n <= |es| && Runs(policy, INITIAL, es) && Stands(policy, es, b, j, n, room)
    ensures j < n && (j == n - 1 ==> es[j].Complete? && At(policy, es, j).slow.Some? && At(policy, es, j).slow.value.room == room)
    ensures j < n - 1 ==> Stands(policy, es, b, j, n - 1, room) && !Drops(policy, es, n - 1, room)
    ensures es[n - 1].Complete? ==> At(policy, es, n - 1).slow.Some?
  {
    AtStep(policy, es, n - 1);
    if j == n - 1 {
      HolderIs(policy, es, b, j);
    }
  }

  /** Over every run with no more rooms than the cache holds: a message skips sharing exactly when a share
      of its room was completed and not dropped since, messages do not rotate one by one, its peers are those
      of that share, which has messages left, counting those that skipped since, and is young enough. */
  lemma SkipsExactlyByHistory(policy: Policy, es: seq<Event>, rooms: set<Room>, room: Room, peers: seq<User>, now: int)
    requires Runs(policy, INITIAL, es) && FewRooms(es, rooms)
    ensures Final(policy, INITIAL, es).shares.IsFresh(policy, room, peers, now)
            <==> && !(policy.rotateEveryMessage && (policy.maxPeers <= 0 || |peers| <= policy.maxPeers))
                 && exists b, j :: && 0 <= b < j < |es| && Stands(policy, es, b, j, |es|, room)
                                   && Members(peers) == Members(es[b].peers)
                                   && 1 + Skipped(policy, es, j + 1, |es|, room) < policy.rotationPeriodMessages
                                   && now - es[j].now < policy.rotationPeriodMs
  {
    var s := Final(policy, INITIAL, es);
    AtEnd(policy, es);
    SkipsExactlyWhenShareStands(policy, es, room, peers, now);
    hide At;
    hide Drops;
    hide Agrees;
    if s.shares.cache.Has(room) {
      var b, j := CachedStands(policy, es, |es|, room);
      StandingIsLedger(policy, es, b, j, |es|, room);
    }
    forall b, j | 0 <= b < j < |es| && Stands(policy, es, b, j, |es|, room)
      ensures s.shares.cache.Has(room)
      ensures s.ledger[room].peers == es[b].peers && s.ledger[room].at == es[j].now
      ensures s.ledger[room].uses == 1 + Skipped(policy, es, j + 1, |es|, room)
    {
      StandsIsCached(policy, es, b, j, |es|, room, rooms);
      StandingIsLedger(policy, es, b, j, |es|, room);
    }
  }
}
