/** The persisted outbox and its flush.

    A flush walks over a snapshot of the store and works on the store by id; while it awaits, other
    code may enqueue. The world says, entry by entry, what arrived and which operations succeeded; a
    process that dies leaves what a store leaves that fails from there on. */
module Outbox {

  datatype Entry = Entry(id: string, roomId: string, content: string, createdAtMs: int, attempts: nat, lastError: string)

  /** What happens around the k-th entry of a flush. */
  datatype Event = Event(arrivals: seq<Entry>, sendOk: bool, removeOk: bool, bumpOk: bool, error: string)

  type World = nat -> Event

  const ERROR_LIMIT := 500

  function Clip(error: string): string {
    if |error| > ERROR_LIMIT then error[..ERROR_LIMIT] else error
  }

  function Bumped(e: Entry, error: string): Entry {
    e.(attempts := e.attempts + 1, lastError := if error != "" then Clip(error) else e.lastError)
  }

  function Removed(entries: seq<Entry>, id: string): seq<Entry> {
    if entries == [] then []
    else (if entries[0].id != id then [entries[0]] else []) + Removed(entries[1..], id)
  }

  function BumpedAll(entries: seq<Entry>, id: string, error: string): (r: seq<Entry>)
    ensures |r| == |entries|
    ensures forall i :: 0 <= i < |r| ==> r[i] == if entries[i].id == id then Bumped(entries[i], error) else entries[i]
  {
    if entries == [] then []
    else [if entries[0].id == id then Bumped(entries[0], error) else entries[0]] + BumpedAll(entries[1..], id, error)
  }

  class OutboxStore {
    var entries: seq<Entry>

    constructor ()
      ensures entries == []
    {
      entries := [];
    }

    method Enqueue(id: string, roomId: string, content: string, now: int) returns (entry: Entry)
      modifies this
      ensures entry == Entry(id, roomId, content, now, 0, "") && entries == old(entries) + [entry]
    {
      entry := Entry(id, roomId, content, now, 0, "");
      entries := entries + [entry];
    }

    method Remove(id: string)
      modifies this
      ensures entries == Removed(old(entries), id)
    {
      entries := Removed(entries, id);
    }

    method BumpAttempt(id: string, error: string)
      modifies this
      ensures entries == BumpedAll(old(entries), id, error)
    {
      ghost var was, goal := entries, BumpedAll(entries, id, error);
      for i := 0 to |entries|
        invariant |entries| == |goal|
        invariant forall j :: 0 <= j < |goal| ==> entries[j] == if j < i then goal[j] else was[j]
      {
        if entries[i].id == id {
          entries := entries[i := Bumped(entries[i], error)];
        }
      }
    }

    /** Others enqueue while a flush awaits. */
    method Meanwhile(arrivals: seq<Entry>)
      modifies this
      ensures entries == old(entries) + arrivals
    {
      entries := entries + arrivals;
    }
  }

  /** Did the store fail where the flush does not catch it? */
  predicate Raises(e: Entry, ev: Event, maxAttempts: int) {
    if e.attempts >= maxAttempts then !ev.removeOk
    else !(ev.sendOk && ev.removeOk) && !ev.bumpOk
  }

  /** What an entry of the snapshot becomes: it leaves when dropped, or when sent and removed. */
  function Settled(e: Entry, ev: Event, maxAttempts: int): seq<Entry> {
    if e.attempts >= maxAttempts || (ev.sendOk && ev.removeOk) then [] else [Bumped(e, ev.error)]
  }

  function AllSettled(snapshot: seq<Entry>, w: World, maxAttempts: int, k: nat): seq<Entry>
    requires k <= |snapshot|
  {
    if k == 0 then []
    else AllSettled(snapshot, w, maxAttempts, k - 1) + Settled(snapshot[k - 1], w(k - 1), maxAttempts)
  }

  function Arrived(w: World, k: nat): seq<Entry> {
    if k == 0 then [] else Arrived(w, k - 1) + w(k - 1).arrivals
  }

  /** How many of the first k entries are past their last attempt. */
  function CountDropped(snapshot: seq<Entry>, maxAttempts: int, k: nat): nat
    requires k <= |snapshot|
  {
    if k == 0 then 0
    else CountDropped(snapshot, maxAttempts, k - 1) + if snapshot[k - 1].attempts >= maxAttempts then 1 else 0
  }

  /** The store of an uninterrupted flush before its k-th entry. */
  ghost function Midway(snapshot: seq<Entry>, w: World, maxAttempts: int, k: nat): seq<Entry>
    requires k <= |snapshot|
  {
    AllSettled(snapshot, w, maxAttempts, k) + snapshot[k..] + Arrived(w, k)
  }

  ghost predicate Unique(entries: seq<Entry>) {
    forall i, j :: 0 <= i < j < |entries| ==> entries[i].id != entries[j].id
  }

  datatype FlushResult = Flushed(sent: nat, dropped: nat) | StoreFailed

  /** The index at which a flush gives up; the length of the snapshot when it does not. */
  function Stop(snapshot: seq<Entry>, w: World, maxAttempts: int, k: nat): (n: nat)
    requires k <= |snapshot|
    ensures k <= n <= |snapshot|
    ensures n < |snapshot| ==> Raises(snapshot[n], w(n), maxAttempts)
    ensures forall i :: k <= i < n ==> !Raises(snapshot[i], w(i), maxAttempts)
    decreases |snapshot| - k
  {
    if k == |snapshot| || Raises(snapshot[k], w(k), maxAttempts) then k else Stop(snapshot, w, maxAttempts, k + 1)
  }

  datatype Fate = Sent | Dropped | Kept | Broken

  /** What becomes of one entry. */
  function FateOf(e: Entry, ev: Event, maxAttempts: int): Fate {
    if Raises(e, ev, maxAttempts) then Broken
    else if e.attempts >= maxAttempts then Dropped
    else if Settled(e, ev, maxAttempts) == [] then Sent
    else Kept
  }

  /** The loop body: one entry of the snapshot against the store. */
  method FlushEntry(store: OutboxStore, entry: Entry, ev: Event, maxAttempts: int) returns (fate: Fate)
    modifies store
    ensures fate == FateOf(entry, ev, maxAttempts)
    ensures var s := old(store.entries) + ev.arrivals;
            store.entries == match fate
                             case Broken => s
                             case Kept => BumpedAll(s, entry.id, ev.error)
                             case _ => Removed(s, entry.id)
  {
    store.Meanwhile(ev.arrivals);
    if entry.attempts >= maxAttempts {
      if !ev.removeOk {
        return Broken;
      }
      store.Remove(entry.id);
      return Dropped;
    }
    if ev.sendOk && ev.removeOk {
      store.Remove(entry.id);
      return Sent;
    }
    if !ev.bumpOk {
      return Broken;
    }
    store.BumpAttempt(entry.id, ev.error);
    return Kept;
  }

  /** The store after a flush: every snapshot entry up to the one on which the store fails settles in place,
      in order; that one and those behind it are as they were; what arrived meanwhile stays last. */
  function AfterFlush(entries: seq<Entry>, w: World, max: int): seq<Entry> {
    var n := Stop(entries, w, max, 0);
    AllSettled(entries, w, max, n) + entries[n..] + Arrived(w, if n < |entries| then n + 1 else n)
  }

  /** What a flush leaves in the store and reports. */
  ghost predicate Flush(was: seq<Entry>, w: World, max: int, now: seq<Entry>, result: FlushResult) {
    && now == AfterFlush(was, w, max)
    && (Stop(was, w, max, 0) < |was| ==> result == StoreFailed)
    && (Stop(was, w, max, 0) == |was| ==>
          && result.Flushed?
          && result.dropped == CountDropped(was, max, |was|)
          && result.sent + result.dropped + |AllSettled(was, w, max, |was|)| == |was|)
  }

  /** A flush under way: k entries done, none of them broken. */
  ghost predicate Underway(was: seq<Entry>, w: World, max: int, k: nat, now: seq<Entry>, sent: nat, dropped: nat) {
    && k <= |was| && now == Midway(was, w, max, k)
    && (forall i :: 0 <= i < k ==> !Raises(was[i], w(i), max))
    && dropped == CountDropped(was, max, k)
    && sent + dropped + |AllSettled(was, w, max, k)| == k
  }

  method FlushOutbox(store: OutboxStore, w: World, maxAttempts: int) returns (result: FlushResult)
    requires Unique(store.entries + Arrived(w, |store.entries|))
    modifies store
    ensures Flush(old(store.entries), w, if maxAttempts < 1 then 1 else maxAttempts, store.entries, result)
  {
    hide *;
    var max := if maxAttempts < 1 then 1 else maxAttempts;
    var snapshot := store.entries;
    var sent: nat, dropped: nat := 0, 0;
    Begin(snapshot, w, max);
    for k := 0 to |snapshot|
      invariant Underway(snapshot, w, max, k, store.entries, sent, dropped)
    {
      ghost var before := store.entries;
      var fate := FlushEntry(store, snapshot[k], w(k), max);
      Advance(snapshot, w, max, k, before, store.entries, sent, dropped);
      match fate {
        case Broken => return StoreFailed;
        case Sent => sent := sent + 1;
        case Dropped => dropped := dropped + 1;
        case Kept =>
      }
    }
    Finish(snapshot, w, max, store.entries, sent, dropped);
    return Flushed(sent, dropped);
  }

  // ------------------------------------------------------------ working by id

  lemma {:induction false} RemovedMisses(entries: seq<Entry>, id: string)
    requires Lacks(entries, id)
    ensures Removed(entries, id) == entries
  {
    if entries != [] {
      RemovedMisses(entries[1..], id);
    }
  }

  ghost predicate Lacks(entries: seq<Entry>, id: string) {
    forall i :: 0 <= i < |entries| ==> entries[i].id != id
  }

  /** Removing by an id that one entry has takes out exactly that entry. */
  lemma {:induction false} RemovedHits(a: seq<Entry>, e: Entry, b: seq<Entry>)
    requires Lacks(a, e.id) && Lacks(b, e.id)
    ensures Removed(a + [e] + b, e.id) == a + b
    decreases |a|
  {
    var s := a + [e] + b;
    if a == [] {
      assert s[1..] == b;
      RemovedMisses(b, e.id);
    } else {
      assert s[1..] == a[1..] + [e] + b;
      RemovedHits(a[1..], e, b);
    }
  }

  lemma BumpedHits(a: seq<Entry>, e: Entry, b: seq<Entry>, error: string)
    requires Lacks(a, e.id) && Lacks(b, e.id)
    ensures BumpedAll(a + [e] + b, e.id, error) == a + [Bumped(e, error)] + b
  {
  }

  /** Every settled entry is what became of one of the first k entries of the snapshot, with its id. */
  lemma {:induction false} SettledFrom(snapshot: seq<Entry>, w: World, max: int, k: nat, e: Entry) returns (i: nat)
    requires k <= |snapshot| && e in AllSettled(snapshot, w, max, k)
    ensures i < k && snapshot[i].id == e.id && Settled(snapshot[i], w(i), max) == [e]
  {
    if e in AllSettled(snapshot, w, max, k - 1) {
      i := SettledFrom(snapshot, w, max, k - 1, e);
    } else {
      i := k - 1;
    }
  }

  lemma {:induction false} SettledStays(snapshot: seq<Entry>, w: World, max: int, k: nat, i: nat)
    requires i < k <= |snapshot| && Settled(snapshot[i], w(i), max) != []
    ensures Settled(snapshot[i], w(i), max)[0] in AllSettled(snapshot, w, max, k)
    decreases k
  {
    if i < k - 1 {
      SettledStays(snapshot, w, max, k - 1, i);
    }
  }

  lemma {:induction false} ArrivedPrefix(w: World, k: nat, n: nat)
    requires k <= n
    ensures |Arrived(w, k)| <= |Arrived(w, n)| && Arrived(w, n)[..|Arrived(w, k)|] == Arrived(w, k)
    decreases n
  {
    if k < n {
      ArrivedPrefix(w, k, n - 1);
    }
  }

  /** Around the k-th entry of the snapshot nothing in the store has its id. */
  lemma Alone(snapshot: seq<Entry>, w: World, max: int, k: nat)
    requires k < |snapshot| && Unique(snapshot + Arrived(w, |snapshot|))
    ensures Lacks(AllSettled(snapshot, w, max, k), snapshot[k].id)
    ensures Lacks(snapshot[k + 1..] + Arrived(w, k + 1), snapshot[k].id)
  {
    var id, all := snapshot[k].id, snapshot + Arrived(w, |snapshot|);
    assert all[k] == snapshot[k];
    var settled := AllSettled(snapshot, w, max, k);
    forall i | 0 <= i < |settled| ensures settled[i].id != id {
      var j := SettledFrom(snapshot, w, max, k, settled[i]);
      assert all[j] == snapshot[j];
    }
    ArrivedPrefix(w, k + 1, |snapshot|);
    var rest := snapshot[k + 1..] + Arrived(w, k + 1);
    forall i | 0 <= i < |rest| ensures rest[i].id != id {
      assert rest[i] == all[k + 1 + i];
    }
  }

  lemma Regroup(settled: seq<Entry>, snapshot: seq<Entry>, k: nat, arrived: seq<Entry>, more: seq<Entry>)
    requires k < |snapshot|
    ensures settled + snapshot[k..] + arrived + more == settled + [snapshot[k]] + (snapshot[k + 1..] + (arrived + more))
    ensures settled + snapshot[k..] + arrived + more == settled + snapshot[k..] + (arrived + more)
  {
    assert snapshot[k..] == [snapshot[k]] + snapshot[k + 1..];
  }

  lemma Shift(settled: seq<Entry>, own: seq<Entry>, rest: seq<Entry>, arrived: seq<Entry>)
    ensures settled + own + (rest + arrived) == (settled + own) + rest + arrived
  {
  }

  /** The store as the k-th entry is taken up, laid out around that entry. */
  lemma Around(snapshot: seq<Entry>, w: World, max: int, k: nat)
    requires k < |snapshot|
    ensures var rest := snapshot[k + 1..] + Arrived(w, k + 1);
            && Midway(snapshot, w, max, k) + w(k).arrivals == AllSettled(snapshot, w, max, k) + [snapshot[k]] + rest
            && Midway(snapshot, w, max, k + 1)
               == AllSettled(snapshot, w, max, k) + Settled(snapshot[k], w(k), max) + rest
  {
    var settled, e, ev := AllSettled(snapshot, w, max, k), snapshot[k], w(k);
    Regroup(settled, snapshot, k, Arrived(w, k), ev.arrivals);
    Shift(settled, Settled(e, ev, max), snapshot[k + 1..], Arrived(w, k + 1));
  }

  /** What removing or bumping the k-th entry leaves of the store. */
  lemma Opened(snapshot: seq<Entry>, w: World, max: int, k: nat)
    requires k < |snapshot| && Unique(snapshot + Arrived(w, |snapshot|))
    ensures var e, ev := snapshot[k], w(k);
            var s := Midway(snapshot, w, max, k) + ev.arrivals;
            && (Settled(e, ev, max) == [] ==> Removed(s, e.id) == Midway(snapshot, w, max, k + 1))
            && (Settled(e, ev, max) != [] ==> BumpedAll(s, e.id, ev.error) == Midway(snapshot, w, max, k + 1))
  {
    hide *;
    var settled, e, rest := AllSettled(snapshot, w, max, k), snapshot[k], snapshot[k + 1..] + Arrived(w, k + 1);
    Around(snapshot, w, max, k);
    Alone(snapshot, w, max, k);
    RemovedHits(settled, e, rest);
    BumpedHits(settled, e, rest, w(k).error);
    SettledIs(e, w(k), max);
    assert settled + [] == settled;
  }

  lemma SettledIs(e: Entry, ev: Event, max: int)
    ensures Settled(e, ev, max) == [] || Settled(e, ev, max) == [Bumped(e, ev.error)]
  {
  }

  lemma StopAt(snapshot: seq<Entry>, w: World, max: int, from: nat, k: nat)
    requires from <= k <= |snapshot|
    requires forall i :: from <= i < k ==> !Raises(snapshot[i], w(i), max)
    requires k < |snapshot| ==> Raises(snapshot[k], w(k), max)
    ensures Stop(snapshot, w, max, from) == k
  {
  }

  lemma Begin(was: seq<Entry>, w: World, max: int)
    ensures Underway(was, w, max, 0, was, 0, 0)
  {
    assert [] + was[0..] + [] == was;
  }

  /** The counts after one more entry. */
  lemma Counted(was: seq<Entry>, w: World, max: int, k: nat)
    requires k < |was|
    ensures CountDropped(was, max, k + 1) == CountDropped(was, max, k) + if was[k].attempts >= max then 1 else 0
    ensures |AllSettled(was, w, max, k + 1)| == |AllSettled(was, w, max, k)| + |Settled(was[k], w(k), max)|
  {
  }

  lemma Advance(was: seq<Entry>, w: World, max: int, k: nat, before: seq<Entry>, now: seq<Entry>, sent: nat, dropped: nat)
    requires k < |was| && Unique(was + Arrived(w, |was|))
    requires Underway(was, w, max, k, before, sent, dropped)
    requires now == match FateOf(was[k], w(k), max)
                    case Broken => before + w(k).arrivals
                    case Kept => BumpedAll(before + w(k).arrivals, was[k].id, w(k).error)
                    case _ => Removed(before + w(k).arrivals, was[k].id)
    ensures match FateOf(was[k], w(k), max)
            case Broken => Flush(was, w, max, now, StoreFailed)
            case Sent => Underway(was, w, max, k + 1, now, sent + 1, dropped)
            case Dropped => Underway(was, w, max, k + 1, now, sent, dropped + 1)
            case Kept => Underway(was, w, max, k + 1, now, sent, dropped)
  {
    if Raises(was[k], w(k), max) {
      Breaks(was, w, max, k, before, sent, dropped);
    } else {
      Opened(was, w, max, k);
      Moves(was, w, max, k, before, now, sent, dropped);
    }
  }

  lemma Breaks(was: seq<Entry>, w: World, max: int, k: nat, before: seq<Entry>, sent: nat, dropped: nat)
    requires k < |was| && Underway(was, w, max, k, before, sent, dropped) && Raises(was[k], w(k), max)
    ensures Flush(was, w, max, before + w(k).arrivals, StoreFailed)
  {
    StopAt(was, w, max, 0, k);
    Regroup(AllSettled(was, w, max, k), was, k, Arrived(w, k), w(k).arrivals);
  }

  lemma Moves(was: seq<Entry>, w: World, max: int, k: nat, before: seq<Entry>, now: seq<Entry>, sent: nat, dropped: nat)
    requires k < |was| && Underway(was, w, max, k, before, sent, dropped) && !Raises(was[k], w(k), max)
    requires now == Midway(was, w, max, k + 1)
    ensures match FateOf(was[k], w(k), max)
            case Broken => false
            case Sent => Underway(was, w, max, k + 1, now, sent + 1, dropped)
            case Dropped => Underway(was, w, max, k + 1, now, sent, dropped + 1)
            case Kept => Underway(was, w, max, k + 1, now, sent, dropped)
  {
    hide Midway;
    hide AllSettled;
    hide CountDropped;
    Counted(was, w, max, k);
  }

  lemma Finish(was: seq<Entry>, w: World, max: int, now: seq<Entry>, sent: nat, dropped: nat)
    requires Underway(was, w, max, |was|, now, sent, dropped)
    ensures Flush(was, w, max, now, Flushed(sent, dropped))
  {
    hide AllSettled;
    hide Arrived;
    hide CountDropped;
    hide Stop;
    StopAt(was, w, max, 0, |was|);
    assert was[|was|..] == [];
    Shift(AllSettled(was, w, max, |was|), [], [], Arrived(w, |was|));
    assert AllSettled(was, w, max, |was|) + [] == AllSettled(was, w, max, |was|);
  }

  // ------------------------------------------------------------ many flushes

  /** What arrives during a flush. */
  function Came(entries: seq<Entry>, w: World, max: int): seq<Entry> {
    var n := Stop(entries, w, max, 0);
    Arrived(w, if n < |entries| then n + 1 else n)
  }

  /** No id occurs twice in the store or among what arrives. */
  ghost predicate FreshIds(entries: seq<Entry>, worlds: seq<World>, max: int)
    decreases |worlds|
  {
    worlds != [] ==>
      Unique(entries + Came(entries, worlds[0], max)) && FreshIds(AfterFlush(entries, worlds[0], max), worlds[1..], max)
  }

  /** The id of an entry that settles to nothing is gone. */
  lemma SettledIsGone(entries: seq<Entry>, w: World, max: int, i: nat)
    requires i < Stop(entries, w, max, 0) && Unique(entries + Came(entries, w, max))
    requires Settled(entries[i], w(i), max) == []
    ensures Lacks(AfterFlush(entries, w, max), entries[i].id)
  {
    var e, n, came := entries[i], Stop(entries, w, max, 0), Came(entries, w, max);
    var settled, after, all := AllSettled(entries, w, max, n), AfterFlush(entries, w, max), entries + came;
    assert after == settled + entries[n..] + came;
    hide AfterFlush;
    hide AllSettled;
    hide Came;
    hide Stop;
    assert all[i] == e;
    forall j | 0 <= j < |after| ensures after[j].id != e.id {
      if j < |settled| {
        var from := SettledFrom(entries, w, max, n, settled[j]);
        assert all[from] == entries[from] && from != i;
      } else {
        assert after[j] == all[n + j - |settled|];
      }
    }
  }

  function FirstChars(s: string, n: nat): (r: string)
    ensures r <= s && |r| == if |s| < n then |s| else n
  {
    if |s| < n then s else s[..n]
  }

  /** A failed attempt is counted and leaves the first 500 characters of its error, if it has one. */
  lemma ErrorIsKept(e: Entry, error: string)
    ensures Bumped(e, error) == e.(attempts := e.attempts + 1,
                                   lastError := if error == "" then e.lastError else FirstChars(error, 500))
  {
    assert error[..|error|] == error;
  }

  /** A flush that reaches an entry takes it out or keeps it with one attempt more; the entry on which the
      store fails and those behind it stay as they are. */
  lemma GoneOrBumped(entries: seq<Entry>, w: World, max: int, i: nat)
    requires i < |entries| && Unique(entries + Came(entries, w, max))
    ensures if i > Stop(entries, w, max, 0) || Raises(entries[i], w(i), max) then entries[i] in AfterFlush(entries, w, max)
            else if entries[i].attempts >= max || (w(i).sendOk && w(i).removeOk)
            then Lacks(AfterFlush(entries, w, max), entries[i].id)
            else entries[i].(attempts := entries[i].attempts + 1,
                             lastError := if w(i).error == "" then entries[i].lastError else FirstChars(w(i).error, 500))
                 in AfterFlush(entries, w, max)
  {
    ErrorIsKept(entries[i], w(i).error);
    var n := Stop(entries, w, max, 0);
    var settled := AllSettled(entries, w, max, n);
    assert AfterFlush(entries, w, max) == settled + entries[n..] + Came(entries, w, max);
    hide AfterFlush;
    hide Unique;
    hide AllSettled;
    hide Came;
    if i >= n {
      assert entries[i] == entries[n..][i - n] && entries[i] in entries[n..];
    } else if Settled(entries[i], w(i), max) != [] {
      SettledStays(entries, w, max, n, i);
    } else {
      SettledIsGone(entries, w, max, i);
    }
  }

  /** The first entry with this id, or -1. */
  ghost function IndexOf(entries: seq<Entry>, id: string): (i: int)
    ensures -1 <= i < |entries|
    ensures i >= 0 ==> entries[i].id == id
    ensures i < 0 ==> Lacks(entries, id)
  {
    if entries == [] then -1
    else if entries[0].id == id then 0
    else
      var i := IndexOf(entries[1..], id);
      if i < 0 then -1 else i + 1
  }

  /** Has the entry left the store by the end of these flushes? */
  ghost predicate Leaves(entries: seq<Entry>, id: string, worlds: seq<World>, max: int)
    decreases |worlds|
  {
    IndexOf(entries, id) < 0 || (worlds != [] && Leaves(AfterFlush(entries, worlds[0], max), id, worlds[1..], max))
  }

  /** In how many flushes, while it is in the store, does the store fail on the entry or before it? */
  ghost function StoppedShort(entries: seq<Entry>, id: string, worlds: seq<World>, max: int): nat
    decreases |worlds|
  {
    var i := IndexOf(entries, id);
    if worlds == [] || i < 0 then 0
    else
      var n := Stop(entries, worlds[0], max, 0);
      (if n < |entries| && n <= i then 1 else 0)
      + StoppedShort(AfterFlush(entries, worlds[0], max), id, worlds[1..], max)
  }

  lemma OnlyOne(entries: seq<Entry>, arrived: seq<Entry>, a: nat, b: int)
    requires Unique(entries + arrived) && a < |entries| && 0 <= b < |entries| && entries[a].id == entries[b].id
    ensures a == b
  {
    assert (entries + arrived)[a] == entries[a] && (entries + arrived)[b] == entries[b];
  }

  lemma Found(entries: seq<Entry>, e: Entry, arrived: seq<Entry>)
    requires e in entries && Unique(entries + arrived)
    ensures IndexOf(entries, e.id) >= 0 && entries[IndexOf(entries, e.id)] == e
  {
    var at: nat :| at < |entries| && entries[at] == e;
    OnlyOne(entries, arrived, at, IndexOf(entries, e.id));
  }

  lemma LacksIndex(entries: seq<Entry>, id: string)
    requires Lacks(entries, id)
    ensures IndexOf(entries, id) < 0
  {
  }

  /** An entry leaves within as many flushes as it has attempts left, and one, not counting those in which
      the store fails on it or before it. */
  lemma {:induction false} LeavesInTime(entries: seq<Entry>, e: Entry, worlds: seq<World>, max: int)
    requires e in entries && FreshIds(entries, worlds, max)
    requires |worlds| - StoppedShort(entries, e.id, worlds, max) > if e.attempts < max then max - e.attempts else 0
    ensures Leaves(entries, e.id, worlds, max)
    decreases |worlds|
  {
    hide AfterFlush;
    hide Came;
    if worlds != [] {
      var w, i, n := worlds[0], IndexOf(entries, e.id), Stop(entries, worlds[0], max, 0);
      var after := AfterFlush(entries, w, max);
      Found(entries, e, Came(entries, w, max));
      GoneOrBumped(entries, w, max, i);
      if i > n || Raises(e, w(i), max) {
        LeavesInTime(after, e, worlds[1..], max);
      } else if e.attempts >= max || (w(i).sendOk && w(i).removeOk) {
        LacksIndex(after, e.id);
      } else {
        ErrorIsKept(e, w(i).error);
        LeavesInTime(after, Bumped(e, w(i).error), worlds[1..], max);
      }
    }
  }

  // ------------------------------------------------------------ what an entry lives through

  /** An entry as a flush takes it up, with the event it meets there. */
  datatype Meeting = Meeting(entry: Entry, event: Event)

  /** The meetings of the entry with this id, in the flushes that get to it, until it has left the store. */
  ghost function Story(entries: seq<Entry>, id: string, worlds: seq<World>, max: int): seq<Meeting>
    decreases |worlds|
  {
    var i := IndexOf(entries, id);
    if worlds == [] || i < 0 then []
    else (if i <= Stop(entries, worlds[0], max, 0) then [Meeting(entries[i], worlds[0](i))] else [])
         + Story(AfterFlush(entries, worlds[0], max), id, worlds[1..], max)
  }

  /** The meeting in which the entry is sent; a server may still drop a second send by its transaction id. */
  predicate Sends(m: Meeting, max: int) {
    m.entry.attempts < max && m.event.sendOk
  }

  function TimesSent(story: seq<Meeting>, max: int): nat {
    if story == [] then 0 else (if Sends(story[0], max) then 1 else 0) + TimesSent(story[1..], max)
  }

  /** The meeting leaves the entry in the store. */
  predicate Stays(m: Meeting, max: int) {
    FateOf(m.entry, m.event, max).Kept? || FateOf(m.entry, m.event, max).Broken?
  }

  /** Was the entry reported lost in its last meeting? */
  predicate EndsDropped(story: seq<Meeting>, max: int) {
    story != [] && FateOf(story[|story| - 1].entry, story[|story| - 1].event, max) == Dropped
  }

  /** How many of the first k meetings could count an attempt? */
  function BumpsBefore(story: seq<Meeting>, k: nat): nat
    requires k <= |story|
  {
    if k == 0 then 0 else BumpsBefore(story, k - 1) + if story[k - 1].event.bumpOk then 1 else 0
  }

  /** Attempts after so many bumps: they stop at the limit. */
  function Attempts(first: nat, bumps: nat, max: int): int {
    if first + bumps <= max then first + bumps else if first > max then first else max
  }

  /** An entry stays in every meeting but the last; its attempts follow from the meetings before; it has
      left exactly when it did not stay in the last one. */
  ghost predicate Regular(story: seq<Meeting>, e: Entry, left: bool, max: int) {
    && (forall k :: 0 <= k < |story| ==>
          story[k].entry.id == e.id && story[k].entry.attempts == Attempts(e.attempts, BumpsBefore(story, k), max))
    && (forall k :: 0 <= k < |story| - 1 ==> Stays(story[k], max))
    && (left <==> story != [] && !Stays(story[|story| - 1], max))
  }

  lemma RegularLast(e: Entry, ev: Event, max: int)
    ensures Regular([Meeting(e, ev)], e, !Stays(Meeting(e, ev), max), max)
    ensures Regular([], e, false, max)
  {
  }

  lemma {:induction false} BumpsShift(m: Meeting, rest: seq<Meeting>, k: nat)
    requires k <= |rest|
    ensures BumpsBefore([m] + rest, k + 1) == BumpsBefore(rest, k) + if m.event.bumpOk then 1 else 0
  {
    if k > 0 {
      BumpsShift(m, rest, k - 1);
    }
  }

  lemma AttemptsShift(m: Meeting, next: Entry, bumps: nat, max: int)
    requires Stays(m, max)
    requires next == if FateOf(m.entry, m.event, max).Kept? then Bumped(m.entry, m.event.error) else m.entry
    ensures next.id == m.entry.id
    ensures Attempts(next.attempts, bumps, max)
            == Attempts(m.entry.attempts, bumps + if m.event.bumpOk then 1 else 0, max)
  {
  }

  lemma RegularMore(m: Meeting, next: Entry, rest: seq<Meeting>, left: bool, max: int)
    requires Stays(m, max) && Regular(rest, next, left, max)
    requires next == if FateOf(m.entry, m.event, max).Kept? then Bumped(m.entry, m.event.error) else m.entry
    ensures Regular([m] + rest, m.entry, left, max)
  {
    hide Stays;
    hide FateOf;
    hide Bumped;
    hide Attempts;
    hide BumpsBefore;
    var all := [m] + rest;
    AttemptsShift(m, next, 0, max);
    forall k | 0 <= k < |all|
      ensures all[k].entry.id == m.entry.id && all[k].entry.attempts == Attempts(m.entry.attempts, BumpsBefore(all, k), max)
    {
      if k > 0 {
        assert all[k] == rest[k - 1];
        BumpsShift(m, rest, k - 1);
        AttemptsShift(m, next, BumpsBefore(rest, k - 1), max);
      } else {
        AtFirst(all, m.entry.attempts, max);
      }
    }
    forall k | 0 <= k < |all| - 1 ensures Stays(all[k], max) {
      assert k > 0 ==> all[k] == rest[k - 1];
    }
    assert rest != [] ==> all[|all| - 1] == rest[|rest| - 1];
  }

  lemma AtFirst(story: seq<Meeting>, first: nat, max: int)
    ensures BumpsBefore(story, 0) == 0 && Attempts(first, 0, max) == first
  {
  }

  /** From one flush that gets to it to the next, an entry stays as it is when the store fails on it and
      gains an attempt when it is kept, until the flush in which it leaves. */
  lemma {:induction false} StoryIs(entries: seq<Entry>, e: Entry, worlds: seq<World>, max: int)
    requires e in entries && FreshIds(entries, worlds, max)
    ensures Regular(Story(entries, e.id, worlds, max), e, Leaves(entries, e.id, worlds, max), max)
    decreases |worlds|
  {
    hide Regular;
    hide AfterFlush;
    hide Came;
    hide Unique;
    if worlds == [] {
      RegularLast(e, Event([], true, true, true, ""), max);
      assert IndexOf(entries, e.id) >= 0;
    } else {
      var w, i, n := worlds[0], IndexOf(entries, e.id), Stop(entries, worlds[0], max, 0);
      var after, m := AfterFlush(entries, w, max), Meeting(e, w(i));
      Found(entries, e, Came(entries, w, max));
      GoneOrBumped(entries, w, max, i);
      var rest := Story(after, e.id, worlds[1..], max);
      if i > n {
        StoryIs(after, e, worlds[1..], max);
        assert Story(entries, e.id, worlds, max) == rest;
      } else if Raises(e, w(i), max) {
        StoryIs(after, e, worlds[1..], max);
        RegularMore(m, e, rest, Leaves(after, e.id, worlds[1..], max), max);
      } else if FateOf(e, w(i), max) == Kept {
        ErrorIsKept(e, w(i).error);
        StoryIs(after, Bumped(e, w(i).error), worlds[1..], max);
        RegularMore(m, Bumped(e, w(i).error), rest, Leaves(after, e.id, worlds[1..], max), max);
      } else {
        LacksIndex(after, e.id);
        assert rest == [] && [m] + rest == [m];
        RegularLast(e, w(i), max);
      }
    }
  }

  lemma StaysIs(m: Meeting, max: int)
    ensures !Stays(m, max) <==> m.event.removeOk && (m.event.sendOk || m.entry.attempts >= max)
  {
  }

  lemma AttemptsLeft(first: nat, bumps: nat, max: int)
    ensures Attempts(first, bumps, max) < max <==> first + bumps < max
  {
  }

  /** The event of a meeting takes the entry out: it can be removed, and was sent or has no attempts left. */
  lemma StaysExactly(story: seq<Meeting>, e: Entry, left: bool, max: int, k: nat)
    requires Regular(story, e, left, max) && k < |story|
    ensures !Stays(story[k], max)
            <==> story[k].event.removeOk && (story[k].event.sendOk || e.attempts + BumpsBefore(story, k) >= max)
    ensures !Stays(story[k], max) ==> left && k == |story| - 1
    ensures story[k].entry.attempts < max <==> e.attempts + BumpsBefore(story, k) < max
  {
    hide Stays;
    hide Attempts;
    hide BumpsBefore;
    StaysIs(story[k], max);
    AttemptsLeft(e.attempts, BumpsBefore(story, k), max);
  }

  /** Over any flushes an entry leaves exactly when some flush that gets to it can remove it and has sent
      it, or finds its attempts used up. */
  lemma LeavesExactly(entries: seq<Entry>, e: Entry, worlds: seq<World>, max: int)
    requires e in entries && FreshIds(entries, worlds, max)
    ensures var story := Story(entries, e.id, worlds, max);
            Leaves(entries, e.id, worlds, max)
            <==> exists k :: 0 <= k < |story| && story[k].event.removeOk
                   && (story[k].event.sendOk || e.attempts + BumpsBefore(story, k) >= max)
  {
    hide Stays;
    var story, left := Story(entries, e.id, worlds, max), Leaves(entries, e.id, worlds, max);
    StoryIs(entries, e, worlds, max);
    if left {
      StaysExactly(story, e, left, max, |story| - 1);
    }
    if k :| 0 <= k < |story| && story[k].event.removeOk
            && (story[k].event.sendOk || e.attempts + BumpsBefore(story, k) >= max) {
      StaysExactly(story, e, left, max, k);
    }
  }

  lemma {:induction false} SentAtAll(story: seq<Meeting>, max: int)
    ensures TimesSent(story, max) >= 1 <==> exists j :: 0 <= j < |story| && Sends(story[j], max)
    decreases |story|
  {
    if story != [] {
      SentAtAll(story[1..], max);
      if j :| 0 <= j < |story| && Sends(story[j], max) {
        assert j == 0 || story[1..][j - 1] == story[j];
      }
    }
  }

  lemma {:induction false} SentTwice(story: seq<Meeting>, max: int)
    ensures TimesSent(story, max) >= 2
            <==> exists j, k :: 0 <= j < k < |story| && Sends(story[j], max) && Sends(story[k], max)
    decreases |story|
  {
    if story != [] {
      var rest := story[1..];
      SentTwice(rest, max);
      SentAtAll(rest, max);
      if j, k :| 0 <= j < k < |story| && Sends(story[j], max) && Sends(story[k], max) {
        assert rest[k - 1] == story[k] && (j > 0 ==> rest[j - 1] == story[j]);
      }
      if TimesSent(rest, max) >= 2 {
        var j, k :| 0 <= j < k < |rest| && Sends(rest[j], max) && Sends(rest[k], max);
        assert story[j + 1] == rest[j] && story[k + 1] == rest[k];
      } else if Sends(story[0], max) && TimesSent(rest, max) >= 1 {
        var j :| 0 <= j < |rest| && Sends(rest[j], max);
        assert story[j + 1] == rest[j];
      }
    }
  }

  lemma {:induction false} BumpsGrow(story: seq<Meeting>, j: nat, k: nat)
    requires j <= k <= |story|
    ensures BumpsBefore(story, j) <= BumpsBefore(story, k)
    decreases k
  {
    if j < k {
      BumpsGrow(story, j, k - 1);
    }
  }

  /** Over any flushes an entry is sent more than once exactly when some flush sends it but fails to remove
      it, and a later one, before its attempts run out, sends it again. */
  lemma SentAgainExactly(entries: seq<Entry>, e: Entry, worlds: seq<World>, max: int)
    requires e in entries && FreshIds(entries, worlds, max)
    ensures var story := Story(entries, e.id, worlds, max);
            TimesSent(story, max) > 1
            <==> exists j, k :: 0 <= j < k < |story| && e.attempts + BumpsBefore(story, k) < max
                   && story[j].event.sendOk && !story[j].event.removeOk && story[k].event.sendOk
  {
    hide Story;
    hide TimesSent;
    hide Stays;
    var story, left := Story(entries, e.id, worlds, max), Leaves(entries, e.id, worlds, max);
    StoryIs(entries, e, worlds, max);
    SentTwice(story, max);
    if j, k :| 0 <= j < k < |story| && Sends(story[j], max) && Sends(story[k], max) {
      StaysExactly(story, e, left, max, j);
      StaysExactly(story, e, left, max, k);
      assert story[j].event.sendOk && !story[j].event.removeOk && story[k].event.sendOk;
    }
    if j, k :| 0 <= j < k < |story| && e.attempts + BumpsBefore(story, k) < max
               && story[j].event.sendOk && !story[j].event.removeOk && story[k].event.sendOk {
      BumpsGrow(story, j, k);
      StaysExactly(story, e, left, max, j);
      StaysExactly(story, e, left, max, k);
      assert Sends(story[j], max) && Sends(story[k], max);
    }
  }

  lemma EndsDroppedIs(story: seq<Meeting>, max: int)
    ensures EndsDropped(story, max)
            <==> story != [] && story[|story| - 1].event.removeOk && story[|story| - 1].entry.attempts >= max
  {
  }

  lemma SentOnceExactly(story: seq<Meeting>, e: Entry, left: bool, max: int)
    requires Regular(story, e, left, max)
    ensures TimesSent(story, max) > 0
            <==> exists j :: 0 <= j < |story| && e.attempts + BumpsBefore(story, j) < max && story[j].event.sendOk
  {
    hide Regular;
    hide TimesSent;
    hide BumpsBefore;
    SentAtAll(story, max);
    forall j | 0 <= j < |story|
      ensures Sends(story[j], max) <==> e.attempts + BumpsBefore(story, j) < max && story[j].event.sendOk
    {
      StaysExactly(story, e, left, max, j);
    }
  }

  lemma DroppedExactly(story: seq<Meeting>, e: Entry, left: bool, max: int)
    requires Regular(story, e, left, max)
    ensures EndsDropped(story, max)
            <==> exists k :: 0 <= k < |story| && e.attempts + BumpsBefore(story, k) >= max && story[k].event.removeOk
  {
    hide Regular;
    hide Stays;
    hide BumpsBefore;
    hide EndsDropped;
    EndsDroppedIs(story, max);
    if story != [] {
      StaysExactly(story, e, left, max, |story| - 1);
    }
    if k :| 0 <= k < |story| && e.attempts + BumpsBefore(story, k) >= max && story[k].event.removeOk {
      StaysExactly(story, e, left, max, k);
    }
  }

  /** Over any flushes an entry was sent and is then reported lost exactly when a flush sends it while its
      attempts last, and one finds them used up and can remove it. */
  lemma SentYetDroppedExactly(entries: seq<Entry>, e: Entry, worlds: seq<World>, max: int)
    requires e in entries && FreshIds(entries, worlds, max)
    ensures var story := Story(entries, e.id, worlds, max);
            TimesSent(story, max) > 0 && EndsDropped(story, max)
            <==> && (exists j :: 0 <= j < |story| && e.attempts + BumpsBefore(story, j) < max && story[j].event.sendOk)
                 && (exists k :: 0 <= k < |story| && e.attempts + BumpsBefore(story, k) >= max && story[k].event.removeOk)
  {
    hide *;
    var story, left := Story(entries, e.id, worlds, max), Leaves(entries, e.id, worlds, max);
    StoryIs(entries, e, worlds, max);
    SentOnceExactly(story, e, left, max);
    DroppedExactly(story, e, left, max);
  }

  // ------------------------------------------------------------ a store that fails

  /** In how many of these flushes does sending the first entry work? */
  function SendsWork(worlds: seq<World>): nat {
    if worlds == [] then 0 else (if worlds[0](0).sendOk then 1 else 0) + SendsWork(worlds[1..])
  }

  /** While the store fails on the first entry, that entry is sent again by every flush that can, without
      bound, and no other entry is reached; none ever leaves. */
  lemma {:induction false} FailingHeadBlocks(entries: seq<Entry>, e: Entry, worlds: seq<World>, max: int)
    requires e in entries && forall k :: 0 <= k < |worlds| ==> Raises(entries[0], worlds[k](0), max)
    ensures !Leaves(entries, e.id, worlds, max)
    ensures var story := Story(entries, e.id, worlds, max);
            if e.id == entries[0].id
            then |story| == |worlds| && TimesSent(story, max) == if entries[0].attempts < max then SendsWork(worlds) else 0
            else story == []
    decreases |worlds|
  {
    var i := IndexOf(entries, e.id);
    if worlds != [] {
      var w, after := worlds[0], AfterFlush(entries, worlds[0], max);
      assert Stop(entries, w, max, 0) == 0;
      assert after == entries + Arrived(w, 1);
      assert after[0] == entries[0] && e in after;
      FailingHeadBlocks(after, e, worlds[1..], max);
      var story, rest := Story(entries, e.id, worlds, max), Story(after, e.id, worlds[1..], max);
      if e.id == entries[0].id {
        assert story == [Meeting(entries[0], w(0))] + rest && story[1..] == rest;
      }
    }
  }

  // ------------------------------------------------------------ two small stories

  /** The send works, the removal does not. */
  function SentNotRemoved(k: nat): Event {
    Event([], true, false, true, "disk full")
  }

  function AllWell(k: nat): Event {
    Event([], true, true, true, "")
  }

  lemma OneFlush(e: Entry, w: World, max: int)
    requires w(0).arrivals == [] && !Raises(e, w(0), max)
    ensures Stop([e], w, max, 0) == 1 && AfterFlush([e], w, max) == Settled(e, w(0), max)
  {
    assert Arrived(w, 0) == [] && Arrived(w, 1) == [] + [];
    assert AllSettled([e], w, max, 0) == [];
    assert [] + Settled(e, w(0), max) + [] + [] == Settled(e, w(0), max);
    assert Stop([e], w, max, 1) == 1;
  }

  lemma StoryOfOne(e: Entry, w: World, rest: seq<World>, max: int)
    requires w(0).arrivals == [] && !Raises(e, w(0), max)
    ensures Story([e], e.id, [w] + rest, max) == [Meeting(e, w(0))] + Story(Settled(e, w(0), max), e.id, rest, max)
  {
    OneFlush(e, w, max);
    assert ([w] + rest)[1..] == rest;
  }

  lemma SentOnceMore(m: Meeting, rest: seq<Meeting>, max: int)
    ensures TimesSent([m] + rest, max) == (if Sends(m, max) then 1 else 0) + TimesSent(rest, max)
  {
    assert ([m] + rest)[1..] == rest;
  }

  /** A removal that fails once lets the entry be sent twice; with one attempt only, it is sent and then
      reported lost. */
  lemma SentAgainOrDropped(e: Entry, max: int)
    requires e.attempts == 0 && max >= 1
    ensures var story := Story([e], e.id, [SentNotRemoved, AllWell], max);
            if max > 1 then TimesSent(story, max) == 2 else TimesSent(story, max) == 1 && EndsDropped(story, max)
  {
    var first: World, second: World := SentNotRemoved, AllWell;
    var bumped := Bumped(e, "disk full");
    var m, n := Meeting(e, first(0)), Meeting(bumped, second(0));
    StoryOfOne(e, first, [second], max);
    StoryOfOne(bumped, second, [], max);
    assert Story(Settled(bumped, second(0), max), e.id, [], max) == [];
    hide Story;
    assert [first] + [second] == [first, second] && [second] + [] == [second] && [n] + [] == [n];
    SentOnceMore(m, [n], max);
    SentOnceMore(n, [], max);
  }
}
