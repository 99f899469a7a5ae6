/** The dispatch queue: at most one running task per room and at most `limit` across rooms.

    The queue's synchronous segments (`acquire`, `release`, `close`) are methods of the class
    `DispatchQueue`, each proved against a function on the value `Q`. The asynchronous `run`
    is a transition system over those functions: every segment between two awaits is one step,
    and the lemmas speak of every interleaving of the steps. */
module Dispatch {

  type Room = string

  /** A call of `run` that did not get a slot at once. `task` numbers the calls in order. */
  datatype Waiter = Waiter(room: Room, task: nat)

  /** The fields of the queue. */
  datatype Q = Q(limit: int, active: int, rooms: set<Room>, waiters: seq<Waiter>, closed: bool) {

    predicate CanRun(room: Room) {
      active < limit && room !in rooms
    }

    function Take(room: Room): Q {
      this.(active := active + 1, rooms := rooms + {room})
    }

    predicate Eligible(w: Waiter, freed: Room, preferOther: bool) {
      !(preferOther && w.room == freed) && CanRun(w.room)
    }

    /** The first index at or after `i` whose waiter is eligible, or the length. */
    function Scan(freed: Room, preferOther: bool, i: nat): (k: nat)
      requires i <= |waiters|
      ensures i <= k <= |waiters|
      ensures forall j :: i <= j < k ==> !Eligible(waiters[j], freed, preferOther)
      ensures k < |waiters| ==> Eligible(waiters[k], freed, preferOther)
      decreases |waiters| - i
    {
      if i == |waiters| || Eligible(waiters[i], freed, preferOther) then i
      else Scan(freed, preferOther, i + 1)
    }

    /** The waiter one round of the wake loop resumes: another room first, then any room. */
    function Pick(freed: Room): (k: nat)
      ensures k <= |waiters|
      ensures k < |waiters| ==> CanRun(waiters[k].room)
      ensures k == |waiters| ==> forall j :: 0 <= j < |waiters| ==> !CanRun(waiters[j].room)
      ensures forall j :: 0 <= j < k < |waiters| ==> waiters[j].room != waiters[k].room
    {
      var k := Scan(freed, true, 0);
      if k < |waiters| then k else Scan(freed, false, 0)
    }

    function Wake(k: nat): Q
      requires k < |waiters|
    {
      this.(waiters := waiters[..k] + waiters[k + 1..]).Take(waiters[k].room)
    }

    /** The wake loop of `release`, with the waiters it resumed in order. */
    function WakeAll(freed: Room): (Q, seq<Waiter>)
      decreases |waiters|
    {
      var k := Pick(freed);
      if active < limit && k < |waiters| then
        var (q, woken) := Wake(k).WakeAll(freed);
        (q, [waiters[k]] + woken)
      else
        (this, [])
    }

    function Freed(room: Room): Q {
      this.(active := if active - 1 > 0 then active - 1 else 0, rooms := rooms - {room})
    }

    function Release(room: Room): (Q, seq<Waiter>) {
      if closed then (Freed(room), []) else Freed(room).WakeAll(room)
    }

    function Acquire(w: Waiter): Q {
      if CanRun(w.room) then Take(w.room) else this.(waiters := waiters + [w])
    }

    /** No waiter could run now, and the counter is the number of busy rooms. */
    ghost predicate Valid() {
      && 1 <= limit
      && active == |rooms| <= limit
      && (closed ==> waiters == [])
      && forall i :: 0 <= i < |waiters| ==> !CanRun(waiters[i].room)
    }
  }

  /** One round of the wake loop. */
  lemma WakeAllStep(q: Q, freed: Room)
    ensures var k := q.Pick(freed);
            if q.active < q.limit && k < |q.waiters|
            then q.WakeAll(freed) == (q.Wake(k).WakeAll(freed).0, [q.waiters[k]] + q.Wake(k).WakeAll(freed).1)
            else q.WakeAll(freed) == (q, [])
  {
  }

  lemma Assoc(a: seq<Waiter>, b: seq<Waiter>, c: seq<Waiter>)
    ensures a + (b + c) == (a + b) + c
  {
  }

  class DispatchQueue {
    const globalLimit: int
    var globalActive: int
    var roomActive: set<Room>
    var waiters: seq<Waiter>
    var closed: bool

    function View(): Q
      reads this
    {
      Q(globalLimit, globalActive, roomActive, waiters, closed)
    }

    constructor (limit: int)
      ensures View() == Q(if limit > 1 then limit else 1, 0, {}, [], false)
      ensures View().Valid()
    {
      globalLimit := if limit > 1 then limit else 1;
      globalActive, roomActive, waiters, closed := 0, {}, [], false;
    }

    /** The segment of `run` before its first await. `granted` tells a resolved promise
        from a parked one; a closed queue refuses. */
    method Acquire(w: Waiter) returns (refused: bool, granted: bool)
      requires View().Valid()
      modifies this
      ensures View().Valid()
      ensures refused == old(closed)
      ensures refused ==> View() == old(View()) && !granted
      ensures !refused ==> View() == old(View()).Acquire(w) && granted == old(View()).CanRun(w.room)
    {
      if closed {
        return true, false;
      }
      if globalActive < globalLimit && w.room !in roomActive {
        globalActive := globalActive + 1;
        roomActive := roomActive + {w.room};
        return false, true;
      }
      waiters := waiters + [w];
      return false, false;
    }

    /** One pass of the wake loop over the waiting list. */
    method WakeOne(freed: Room, preferOther: bool) returns (woken: seq<Waiter>)
      modifies this
      ensures var q := old(View()); var k := q.Scan(freed, preferOther, 0);
              if k < |q.waiters| then woken == [q.waiters[k]] && View() == q.Wake(k)
              else woken == [] && View() == q
    {
      for i := 0 to |waiters|
        invariant View() == old(View())
        invariant forall j :: 0 <= j < i ==> !View().Eligible(waiters[j], freed, preferOther)
      {
        var waiter := waiters[i];
        if (preferOther && waiter.room == freed) || globalActive >= globalLimit || waiter.room in roomActive {
          continue;
        }
        waiters := waiters[..i] + waiters[i + 1..];
        globalActive := globalActive + 1;
        roomActive := roomActive + {waiter.room};
        return [waiter];
      }
      return [];
    }

    /** Both passes: another room first, then the freed one. */
    method WakeNext(freed: Room) returns (woken: seq<Waiter>)
      modifies this
      ensures var q := old(View()); var k := q.Pick(freed);
              if k < |q.waiters| then woken == [q.waiters[k]] && View() == q.Wake(k)
              else woken == [] && View() == q
    {
      woken := WakeOne(freed, true);
      if woken == [] {
        woken := WakeOne(freed, false);
      }
    }

    /** Give a slot back and resume whoever can now run. */
    method Release(room: Room) returns (woken: seq<Waiter>)
      modifies this
      ensures (View(), woken) == old(View()).Release(room)
    {
      globalActive := if globalActive - 1 > 0 then globalActive - 1 else 0;
      roomActive := roomActive - {room};
      woken := [];
      if closed {
        return;
      }
      ghost var goal := View().WakeAll(room);
      assert [] + goal.1 == goal.1;
      while globalActive < globalLimit
        invariant !closed && View().WakeAll(room).0 == goal.0 && woken + View().WakeAll(room).1 == goal.1
        decreases |waiters|
      {
        WakeAllStep(View(), room);
        var one := WakeNext(room);
        if one == [] {
          break;
        }
        Assoc(woken, one, View().WakeAll(room).1);
        woken := woken + one;
      }
      WakeAllStep(View(), room);
      assert woken + [] == woken;
    }

    /** Refuse new work and hand back the waiters to reject. */
    method Close() returns (rejected: seq<Waiter>)
      requires View().Valid()
      modifies this
      ensures View() == old(View()).(closed := true, waiters := []) && View().Valid()
      ensures rejected == if old(closed) then [] else old(waiters)
    {
      if closed {
        return [];
      }
      closed := true;
      rejected := waiters;
      waiters := [];
    }
  }

  // ---------------------------------------------------------------- what a release does

  ghost function Without(ws: seq<Waiter>, k: nat): seq<Waiter>
    requires k <= |ws|
  {
    if k == |ws| then ws else ws[..k] + ws[k + 1..]
  }

  lemma NoneRunnable(q: Q, freed: Room)
    requires forall j :: 0 <= j < |q.waiters| ==> !q.CanRun(q.waiters[j].room)
    ensures q.WakeAll(freed) == (q, [])
  {
    WakeAllStep(q, freed);
  }

  /** After the first waiter is resumed no other can run: its slot, or its room, is what was free. */
  lemma NoneLeft(q: Q, room: Room, k: nat)
    requires q.Valid() && room in q.rooms && |q.rooms - {room}| == |q.rooms| - 1
    requires k == q.Freed(room).Pick(room) < |q.waiters|
    ensures var g := q.Freed(room).Wake(k);
            && g.Valid() && g.active == q.active && g.rooms == q.rooms - {room} + {q.waiters[k].room}
  {
    var g := q.Freed(room).Wake(k);
    forall j | 0 <= j < |g.waiters| ensures !g.CanRun(g.waiters[j].room) {
      assert g.waiters[j] == q.waiters[if j < k then j else j + 1];
    }
  }

  lemma WakesOnce(q: Q, room: Room, k: nat)
    requires q.Valid() && room in q.rooms && |q.rooms - {room}| == |q.rooms| - 1
    requires k == q.Freed(room).Pick(room) < |q.waiters|
    ensures q.Freed(room).WakeAll(room) == (q.Freed(room).Wake(k), [q.waiters[k]])
  {
    NoneLeft(q, room, k);
    Once(q.Freed(room), room, k);
  }

  lemma Once(f: Q, room: Room, k: nat)
    requires k == f.Pick(room) < |f.waiters| && f.Wake(k).Valid()
    ensures f.WakeAll(room) == (f.Wake(k), [f.waiters[k]])
  {
    NoneRunnable(f.Wake(k), room);
    WakeAllStep(f, room);
    assert [f.waiters[k]] + [] == [f.waiters[k]];
  }

  /** From a valid queue a release resumes at most one waiter, the one at `k`: the first whose
      room was idle, or, if there is none, the first of the room that was freed. */
  lemma ReleaseWakesAtMostOne(q: Q, room: Room) returns (k: nat)
    requires q.Valid() && room in q.rooms
    ensures q.Release(room).0.Valid()
    ensures k <= |q.waiters|
    ensures var woken := q.waiters[k..][..if k < |q.waiters| then 1 else 0];
            q.Release(room) == (q.(active := q.active - 1 + |woken|,
                                   rooms := q.rooms - {room} + (set w | w in woken :: w.room),
                                   waiters := Without(q.waiters, k)),
                                woken)
    ensures forall j :: 0 <= j < k ==> q.waiters[j].room in q.rooms
    ensures k < |q.waiters| ==> q.waiters[k].room in q.rooms ==>
              (forall w :: w in q.waiters ==> w.room in q.rooms) && q.waiters[k].room == room
    ensures k < |q.waiters| ==> forall j :: 0 <= j < k ==> q.waiters[j].room != q.waiters[k].room
    ensures k == |q.waiters| ==> forall w :: w in q.waiters ==> w.room in q.rooms && w.room != room
  {
    var f := q.Freed(room);
    assert |q.rooms - {room}| == |q.rooms| - 1;
    k := f.Pick(room);
    if k < |f.waiters| {
      NoneLeft(q, room, k);
      WakesOnce(q, room, k);
      assert q.waiters[k..][..1] == [q.waiters[k]];
      assert (set w | w in [q.waiters[k]] :: w.room) == {q.waiters[k].room};
    } else {
      assert f.WakeAll(room) == (f, []);
      assert q.waiters[k..] == [];
      var none: seq<Waiter> := [];
      assert (set w | w in none :: w.room) == {};
    }
  }

  // ------------------------------------------------------------------ all interleavings

  datatype Slot = Slot(task: nat, started: bool)

  /** The queue, the calls of `run` that hold a slot, the calls made on the open queue and the
      tasks whose function body began, both in order. */
  datatype Sys = Sys(q: Q, held: map<Room, Slot>, called: seq<Waiter>, started: seq<Waiter>)

  /** `Call`: `run` up to its await. `Resume`: `run` after `acquire` resolved. `Finish`: the
      task settles and `finally` releases. */
  datatype Event = Call(room: Room) | Resume(room: Room) | Finish(room: Room) | Close

  ghost predicate Enabled(s: Sys, e: Event) {
    match e
    case Call(_) => true
    case Resume(room) => room in s.held && !s.held[room].started
    case Finish(room) => room in s.held && s.held[room].started
    case Close => true
  }

  ghost function Drop(s: Sys, room: Room): Sys {
    var (q, woken) := s.q.Release(room);
    s.(q := q, held := Hold(s.held - {room}, woken))
  }

  ghost function Hold(held: map<Room, Slot>, woken: seq<Waiter>): map<Room, Slot>
    decreases |woken|
  {
    if woken == [] then held else Hold(held[woken[0].room := Slot(woken[0].task, false)], woken[1..])
  }

  ghost function Step(s: Sys, e: Event): Sys
    requires Enabled(s, e)
  {
    match e
    case Call(room) =>
      var w := Waiter(room, |s.called|);
      if s.q.closed then s
      else s.(q := s.q.Acquire(w), called := s.called + [w],
              held := if s.q.CanRun(room) then s.held[room := Slot(w.task, false)] else s.held)
    case Resume(room) =>
      if s.q.closed then Drop(s, room)
      else s.(held := s.held[room := s.held[room].(started := true)],
              started := s.started + [Waiter(room, s.held[room].task)])
    case Finish(room) => Drop(s, room)
    case Close => if s.q.closed then s else s.(q := s.q.(closed := true, waiters := []))
  }

  ghost predicate Runs(s: Sys, es: seq<Event>)
    decreases |es|
  {
    es == [] || (Enabled(s, es[0]) && Runs(Step(s, es[0]), es[1..]))
  }

  ghost function Final(s: Sys, es: seq<Event>): Sys
    requires Runs(s, es)
    decreases |es|
  {
    if es == [] then s else Final(Step(s, es[0]), es[1..])
  }

  ghost function Init(limit: int): Sys {
    Sys(Q(if limit > 1 then limit else 1, 0, {}, [], false), map[], [], [])
  }

  /** The waiters of one room, in order. */
  ghost function Of(ws: seq<Waiter>, room: Room): seq<Waiter> {
    if ws == [] then []
    else (if ws[0].room == room then [ws[0]] else []) + Of(ws[1..], room)
  }

  /** The task of a room that has its slot but has not begun. */
  ghost function Granted(s: Sys, room: Room): seq<Waiter> {
    if room in s.held && !s.held[room].started then [Waiter(room, s.held[room].task)] else []
  }

  /** Calls of one room are begun, about to begin, and waiting, in the order they were made. */
  ghost predicate InOrder(s: Sys, room: Room) {
    if s.q.closed then Of(s.started, room) <= Of(s.called, room)
    else Of(s.started, room) + Granted(s, room) + Of(s.q.waiters, room) == Of(s.called, room)
  }

  ghost predicate Inv(s: Sys) {
    && s.q.Valid()
    && s.held.Keys == s.q.rooms
    && (forall i :: 0 <= i < |s.called| ==> s.called[i].task == i)
    && forall room :: InOrder(s, room)
  }

  lemma {:induction false} OfConcat(a: seq<Waiter>, b: seq<Waiter>, room: Room)
    ensures Of(a + b, room) == Of(a, room) + Of(b, room)
  {
    if a == [] {
      assert a + b == b;
    } else {
      var whole := a + b;
      assert whole[0] == a[0] && whole[1..] == a[1..] + b;
      OfConcat(a[1..], b, room);
      Assoc(if a[0].room == room then [a[0]] else [], Of(a[1..], room), Of(b, room));
    }
  }

  /** Removing the first waiter of its room takes the head of that room's line, no other line. */
  lemma {:induction false} OfRemove(ws: seq<Waiter>, k: nat, room: Room)
    requires k < |ws|
    requires forall j :: 0 <= j < k ==> ws[j].room != ws[k].room
    ensures Of(ws, room) == (if ws[k].room == room then [ws[k]] else []) + Of(Without(ws, k), room)
  {
    if k == 0 {
      assert Without(ws, 0) == ws[1..];
    } else {
      OfRemove(ws[1..], k - 1, room);
      var rest := Without(ws, k);
      assert rest[0] == ws[0] && rest[1..] == Without(ws[1..], k - 1);
      if ws[0].room == room {
        assert [] + Of(rest[1..], room) == Of(rest[1..], room);
      }
    }
  }

  lemma {:induction false} OfNone(ws: seq<Waiter>, room: Room)
    requires forall j :: 0 <= j < |ws| ==> ws[j].room != room
    ensures Of(ws, room) == []
  {
    if ws != [] {
      OfNone(ws[1..], room);
    }
  }

  /** What a release does to the slots, given the waiter it resumes. */
  lemma HoldOne(s: Sys, room: Room, k: nat)
    requires k <= |s.q.waiters|
    requires s.q.Release(room).1 == s.q.waiters[k..][..if k < |s.q.waiters| then 1 else 0]
    ensures Drop(s, room).held ==
              if k == |s.q.waiters| then s.held - {room}
              else (s.held - {room})[s.q.waiters[k].room := Slot(s.q.waiters[k].task, false)]
  {
    var woken := s.q.Release(room).1;
    if k < |s.q.waiters| {
      var w := s.q.waiters[k];
      assert woken == [w] && woken[1..] == [];
      var held := (s.held - {room})[w.room := Slot(w.task, false)];
      assert Hold(s.held - {room}, woken) == Hold(held, woken[1..]) == held;
    } else {
      assert woken == [];
    }
  }

  lemma DropKeepsOrder(s: Sys, room: Room, other: Room)
    requires Inv(s) && room in s.held && s.held[room].started && !s.q.closed
    ensures InOrder(Drop(s, room), other)
  {
    hide Q.Release;
    hide Hold;
    var k := ReleaseWakesAtMostOne(s.q, room);
    HoldOne(s, room, k);
    assert InOrder(s, other);
    var t := Drop(s, room);
    var begun, g, line := Of(s.started, other), Granted(s, other), Of(s.q.waiters, other);
    var line' := Of(t.q.waiters, other);
    if k < |s.q.waiters| {
      OfRemove(s.q.waiters, k, other);
      if s.q.waiters[k].room == other {
        assert g == [] && Granted(t, other) == [s.q.waiters[k]];
        Regroup(begun, g, [s.q.waiters[k]], line');
      } else {
        assert Granted(t, other) == g && [] + line' == line';
      }
    } else {
      assert Granted(t, other) == g;
    }
  }

  lemma Regroup(a: seq<Waiter>, b: seq<Waiter>, c: seq<Waiter>, d: seq<Waiter>)
    ensures a + b + (c + d) == a + b + c + d
    ensures b == [] ==> a + b == a
  {
  }

  lemma DropInv(s: Sys, room: Room)
    requires Inv(s) && room in s.held && (s.held[room].started || s.q.closed)
    ensures Inv(Drop(s, room))
  {
    var k := ReleaseWakesAtMostOne(s.q, room);
    HoldOne(s, room, k);
    var t := Drop(s, room);
    if k < |s.q.waiters| {
      assert s.q.waiters[k..][..1] == [s.q.waiters[k]];
    }
    forall other ensures InOrder(t, other) {
      if s.q.closed {
        assert InOrder(s, other);
      } else {
        DropKeepsOrder(s, room, other);
      }
    }
  }

  lemma CallKeepsOrder(s: Sys, room: Room, other: Room)
    requires Inv(s) && !s.q.closed
    ensures InOrder(Step(s, Call(room)), other)
  {
    var w := Waiter(room, |s.called|);
    var t := Step(s, Call(room));
    assert InOrder(s, other);
    var begun, g, line := Of(s.started, other), Granted(s, other), Of(s.q.waiters, other);
    OfConcat(s.called, [w], other);
    OfConcat(s.q.waiters, [w], other);
    var mine := Of([w], other);
    assert Of([w][1..], other) == [];
    Regroup(begun, g, line, mine);
    if s.q.CanRun(room) && other == room {
      OfNone(s.q.waiters, room);
      assert g == [] && Granted(t, other) == [w] == mine;
      assert Of(t.started, other) + Granted(t, other) + Of(t.q.waiters, other) == begun + [w] + [];
    } else if s.q.CanRun(room) {
      assert mine == [] && Granted(t, other) == g;
      assert Of(t.called, other) == Of(s.called, other) + [];
    } else {
      assert Granted(t, other) == g;
    }
  }

  lemma CallInv(s: Sys, room: Room)
    requires Inv(s) && !s.q.closed
    ensures Inv(Step(s, Call(room)))
  {
    var t := Step(s, Call(room));
    forall other ensures InOrder(t, other) {
      CallKeepsOrder(s, room, other);
    }
  }

  lemma ResumeInv(s: Sys, room: Room)
    requires Inv(s) && !s.q.closed && Enabled(s, Resume(room))
    ensures Inv(Step(s, Resume(room)))
  {
    var t := Step(s, Resume(room));
    forall other ensures InOrder(t, other) {
      assert InOrder(s, other);
      OfConcat(s.started, [Waiter(room, s.held[room].task)], other);
    }
  }

  /** Every step of every interleaving keeps the invariant: no lost wake-up, the counter equals
      the number of busy rooms and stays within the limit, and each room's line is in order. */
  lemma StepInv(s: Sys, e: Event)
    requires Inv(s) && Enabled(s, e)
    ensures Inv(Step(s, e))
  {
    match e
    case Call(room) =>
      if !s.q.closed { CallInv(s, room); }
    case Resume(room) =>
      if s.q.closed { DropInv(s, room); } else { ResumeInv(s, room); }
    case Finish(room) =>
      DropInv(s, room);
    case Close =>
      if !s.q.closed {
        var t := Step(s, e);
        forall room ensures InOrder(t, room) {
          assert InOrder(s, room);
        }
      }
  }

  lemma {:induction false} RunInv(s: Sys, es: seq<Event>)
    requires Inv(s) && Runs(s, es)
    ensures Inv(Final(s, es))
    decreases |es|
  {
    if es != [] {
      StepInv(s, es[0]);
      RunInv(Step(s, es[0]), es[1..]);
    }
  }

  /** Over every run from a new queue: no queued waiter is runnable, the counter is the number of
      slot holders and within the limit, and a release always finds a positive counter. */
  lemma NoLostWakeUp(limit: int, es: seq<Event>)
    requires Runs(Init(limit), es)
    ensures var s := Final(Init(limit), es);
            && (forall w :: w in s.q.waiters ==> !s.q.CanRun(w.room))
            && s.q.active == |s.held| <= s.q.limit
            && (s.held != map[] ==> s.q.active - 1 >= 0)
            && (s.q.closed ==> s.q.waiters == [])
            && s.q.limit == (if limit < 1 then 1 else limit) && (s.q.closed <==> Close in es)
  {
    RunInv(Init(limit), es);
    LimitAndClosed(Init(limit), es);
    var s := Final(Init(limit), es);
    assert |s.held| == |s.held.Keys|;
  }

  lemma {:induction false} WakeKeeps(q: Q, freed: Room)
    ensures var t := q.WakeAll(freed).0; t.limit == q.limit && t.closed == q.closed
    decreases |q.waiters|
  {
    WakeAllStep(q, freed);
    var k := q.Pick(freed);
    if q.active < q.limit && k < |q.waiters| {
      WakeKeeps(q.Wake(k), freed);
    }
  }

  lemma StepKeeps(s: Sys, e: Event)
    requires Enabled(s, e)
    ensures var t := Step(s, e);
            && t.q.limit == s.q.limit && (t.q.closed <==> s.q.closed || e.Close?)
            && (s.q.closed ==> t.started == s.started && t.called == s.called)
  {
    hide Q.WakeAll;
    match e
    case Resume(room) => WakeKeeps(s.q.Freed(room), room);
    case Finish(room) => WakeKeeps(s.q.Freed(room), room);
    case _ =>
  }

  lemma {:induction false} LimitAndClosed(s: Sys, es: seq<Event>)
    requires Runs(s, es)
    ensures var t := Final(s, es);
            && t.q.limit == s.q.limit && (t.q.closed <==> s.q.closed || Close in es)
            && (s.q.closed ==> t.started == s.started && t.called == s.called)
    decreases |es|
  {
    if es != [] {
      hide Step;
      StepKeeps(s, es[0]);
      LimitAndClosed(Step(s, es[0]), es[1..]);
    }
  }

  /** Once the queue was closed, no call is taken up and no task begins, whatever happens; those that had
      their slot give it back. */
  lemma ClosedForGood(limit: int, es: seq<Event>, more: seq<Event>)
    requires Runs(Init(limit), es) && Close in es && Runs(Final(Init(limit), es), more)
    ensures var s, t := Final(Init(limit), es), Final(Final(Init(limit), es), more);
            && t.started == s.started && t.called == s.called && t.q.closed && s.q.waiters == [] && t.q.waiters == []
  {
    RunInv(Init(limit), es);
    LimitAndClosed(Init(limit), es);
    RunInv(Final(Init(limit), es), more);
    LimitAndClosed(Final(Init(limit), es), more);
  }

  /** Tasks of one room start in the order they called `run`: the n-th start of a room is its
      n-th call. On an open queue nothing is lost: the rest of the room's calls are still in line. */
  lemma RoomFifo(limit: int, es: seq<Event>, room: Room)
    requires Runs(Init(limit), es)
    ensures var s := Final(Init(limit), es);
            && Of(s.started, room) <= Of(s.called, room)
            && (!s.q.closed ==>
                  Of(s.called, room)[|Of(s.started, room)|..] == Granted(s, room) + Of(s.q.waiters, room))
  {
    RunInv(Init(limit), es);
    var s := Final(Init(limit), es);
    assert InOrder(s, room);
    if !s.q.closed {
      var a, b, c := Of(s.started, room), Granted(s, room), Of(s.q.waiters, room);
      assert a + b + c == a + (b + c);
    }
  }

  // ------------------------------------------------------------------- bounded bypass

  ghost function Finishes(es: seq<Event>): nat {
    if es == [] then 0 else (if es[0].Finish? then 1 else 0) + Finishes(es[1..])
  }

  /** The task has its slot: its function began, or is about to. */
  ghost predicate HasSlot(s: Sys, w: Waiter) {
    w in s.started || (w.room in s.held && s.held[w.room] == Slot(w.task, false))
  }

  /** `i` is the oldest queued waiter of a room that has nothing running. */
  ghost predicate OldestOfIdle(s: Sys, i: nat) {
    && i < |s.q.waiters|
    && s.q.waiters[i].room !in s.q.rooms
    && forall j :: 0 <= j < i ==> s.q.waiters[j].room != s.q.waiters[i].room
  }

  lemma SlotKept(s: Sys, e: Event, w: Waiter)
    requires Inv(s) && Enabled(s, e) && !s.q.closed && HasSlot(s, w)
    ensures HasSlot(Step(s, e), w)
  {
    if w !in s.started && e.Finish? && e.room != w.room {
      var k := ReleaseWakesAtMostOne(s.q, e.room);
      HoldOne(s, e.room, k);
    }
  }

  lemma {:induction false} SlotKeptRun(s: Sys, es: seq<Event>, w: Waiter)
    requires Inv(s) && Runs(s, es) && !s.q.closed && Close !in es && HasSlot(s, w)
    ensures HasSlot(Final(s, es), w)
    decreases |es|
  {
    if es != [] {
      StepInv(s, es[0]);
      StillOpen(s, es[0]);
      SlotKept(s, es[0], w);
      SlotKeptRun(Step(s, es[0]), es[1..], w);
    }
  }

  lemma StillOpen(s: Sys, e: Event)
    requires Inv(s) && Enabled(s, e) && !s.q.closed && e != Close
    ensures !Step(s, e).q.closed
  {
    if e.Finish? {
      var k := ReleaseWakesAtMostOne(s.q, e.room);
    }
  }

  /** A completion either starts the idle room's oldest waiter or moves it one place up. */
  lemma FinishAdvances(s: Sys, room: Room, i: nat)
    requires Inv(s) && !s.q.closed && Enabled(s, Finish(room)) && OldestOfIdle(s, i)
    ensures var t := Step(s, Finish(room)); var w := s.q.waiters[i];
            HasSlot(t, w) || (i > 0 && OldestOfIdle(t, i - 1) && t.q.waiters[i - 1] == w)
  {
    hide Q.Release;
    var w := s.q.waiters[i];
    var k := ReleaseWakesAtMostOne(s.q, room);
    var q := Step(s, Finish(room)).q;
    assert k <= i;
    HoldOne(s, room, k);
    if k < i {
      assert q.waiters[i - 1] == w;
      forall j | 0 <= j < i - 1 ensures q.waiters[j].room != w.room {
        assert q.waiters[j] == s.q.waiters[if j < k then j else j + 1];
      }
    }
  }

  lemma OtherKeepsPlace(s: Sys, e: Event, i: nat)
    requires Inv(s) && !s.q.closed && Enabled(s, e) && e != Close && !e.Finish? && OldestOfIdle(s, i)
    ensures OldestOfIdle(Step(s, e), i) && Step(s, e).q.waiters[i] == s.q.waiters[i]
  {
    assert !s.q.CanRun(s.q.waiters[i].room);
  }

  /** Bounded bypass: once a room is idle and its oldest queued task has `i` waiters ahead of it,
      that task has its slot after `i + 1` further completions, whatever arrives meanwhile. */
  lemma {:induction false} BoundedBypass(s: Sys, es: seq<Event>, i: nat)
    requires Inv(s) && !s.q.closed && Runs(s, es) && Close !in es
    requires OldestOfIdle(s, i)
    requires Finishes(es) >= i + 1
    ensures HasSlot(Final(s, es), s.q.waiters[i])
    decreases |es|
  {
    var e, t := es[0], Step(s, es[0]);
    StepInv(s, e);
    StillOpen(s, e);
    if e.Finish? {
      FinishAdvances(s, e.room, i);
      if HasSlot(t, s.q.waiters[i]) {
        SlotKeptRun(t, es[1..], s.q.waiters[i]);
      } else {
        BoundedBypass(t, es[1..], i - 1);
      }
    } else {
      OtherKeepsPlace(s, e, i);
      BoundedBypass(t, es[1..], i);
    }
  }
}
