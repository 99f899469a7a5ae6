/** The sync loop: a crash-and-restart machine around one token, one file and a poison counter.

    One `Round` holds everything the outside world decides during one pass of the loop. `Play` is
    the pass as a function; the method `SyncLoop.Loop` is the loop itself, proved to play the
    rounds. A life of the bot is a series of incarnations, each starting from the file that the
    previous one left, and the theorems speak of the whole trace of such a life. */
module Sync {
  import opened Optional

  type Token = string

  datatype FilterKind = Bootstrap | Runtime

  datatype SyncState = SyncState(nextBatch: Option<Token>, bootstrapDone: bool, filterId: Option<string>,
                                 filterKind: Option<FilterKind>, userId: Option<string>)
  {
    predicate NeedsBootstrap() {
      nextBatch.None? || !bootstrapDone
    }

    predicate NeedsUpload() {
      filterId.None? || filterId.value == "" || filterKind != Some(Runtime)
    }

    /** The filter that a poll carries. */
    function Filter(): Option<string> {
      if filterId == Some("") then None else filterId
    }
  }

  const EMPTY := SyncState(None, false, None, None, None)
  const MAX_POISON_RETRIES := 3

  /** The state a loop starts from; a file of another user is ignored. */
  function LoadSyncState(file: Option<SyncState>, user: string): SyncState {
    if file.None? then EMPTY
    else
      var raw := file.value;
      if user != "" && raw.userId.Some? && raw.userId.value != "" && raw.userId.value != user then
        EMPTY.(userId := Some(user))
      else
        raw.(filterId := if raw.filterId == Some("") then None else raw.filterId,
             userId := if user == "" then None else Some(user))
  }

  datatype Err = Auth | Abort | Other

  datatype Upload = Uploaded(id: string) | UploadFailed(err: Err)
  datatype Fetch = Response(next: Token) | FetchFailed(err: Err)
  datatype Handled = Ok | Threw(err: Err)
  datatype Crash = NoCrash | BeforeFilterSave | BeforeHandler | BeforeSave

  /** What the outside decides in one pass: the answers, whether each file write succeeds, whether
      `stop` is called while the poll is pending or by the time an error is caught, and whether the
      process dies in between. */
  datatype Round = Round(upload: Upload, filterSaved: bool, fetch: Fetch, handled: Handled, saved: bool,
                         stopInFetch: bool, stopInCatch: bool, crash: Crash)

  /** What can be seen of a loop: a start with what the file gave, the filter uploaded and written to the
      file or not, a poll, a handler call, a move of the token, its write, and a sleep before the jitter. */
  datatype Event =
    | Started(token: Option<Token>, usable: Option<string>)
    | FilterSaved(id: string)
    | FilterFailed
    | Polled(sinceToken: Option<Token>, filter: Option<string>)
    | Called(since: Option<Token>, next: Token, bootstrap: bool, ok: bool)
    | Moved(from: Option<Token>, to: Token)
    | Persisted(saved: Token)
    | Slept(ms: int)

  datatype Config = Config(user: string, minBackoff: int, maxBackoff: int)

  /** The local variables of the loop and the file. */
  datatype Mem = Mem(state: SyncState, file: Option<SyncState>, poison: Option<string>, count: nat, backoff: int)

  datatype Next = Continue | Halt(fatal: bool)

  function Clamp(value: int, min: int, max: int): int {
    var v := if min > value then min else value;
    if max < v then max else v
  }

  function BatchKey(state: SyncState): string {
    if state.nextBatch.Some? then state.nextBatch.value else "<initial>"
  }

  function Catch(c: Config, m: Mem, err: Err, stopped: bool): (Mem, seq<Event>, Next) {
    if stopped || err == Abort then (m, [], Halt(false))
    else if err == Auth then (m, [], Halt(true))
    else (m.(backoff := Clamp(m.backoff * 2, c.minBackoff, c.maxBackoff)), [Slept(m.backoff)], Continue)
  }

  /** The filter step: upload and remember it, or go on without one. */
  function PlayFilter(m: Mem, r: Round): (Mem, seq<Event>) {
    var s := m.state;
    if !s.NeedsUpload() then (m, [])
    else if r.upload.Uploaded? && r.crash != BeforeFilterSave && r.filterSaved then
      var s' := s.(filterId := Some(r.upload.id), filterKind := Some(Runtime));
      (m.(state := s', file := Some(s')), [FilterSaved(r.upload.id)])
    else
      (m.(state := s.(filterId := None, filterKind := None)), [FilterFailed])
  }

  /** A handler failure: retry the batch three times, then give up on it. */
  function Poisoned(m: Mem): (Mem, bool) {
    var key := BatchKey(m.state);
    var count := if m.poison == Some(key) then m.count + 1 else 1;
    if count <= MAX_POISON_RETRIES then (m.(poison := Some(key), count := count), true)
    else (m.(poison := None, count := 0), false)
  }

  function Committed(c: Config, state: SyncState, next: Token): SyncState {
    var id := if state.filterId == Some("") then None else state.filterId;
    SyncState(Some(next), true, id, state.filterKind, Some(c.user))
  }

  function PlayCommit(c: Config, m: Mem, next: Token, r: Round): (Mem, seq<Event>, Next) {
    var moved := [Moved(m.state.nextBatch, next)];
    var m' := m.(state := Committed(c, m.state, next));
    if r.crash == BeforeSave then (m', moved, Halt(false))
    else if !r.saved then
      var (m'', slept, go) := Catch(c, m', Other, r.stopInCatch);
      (m'', moved + slept, go)
    else
      (m'.(file := Some(m'.state), backoff := c.minBackoff), moved + [Persisted(next)], Continue)
  }

  function PlayResponse(c: Config, m: Mem, next: Token, bootstrap: bool, r: Round): (Mem, seq<Event>, Next) {
    var call := [Called(m.state.nextBatch, next, bootstrap, r.handled.Ok?)];
    if r.handled.Threw? then
      var (p, retry) := Poisoned(m);
      if retry then
        var (m', slept, go) := Catch(c, p, r.handled.err, r.stopInCatch);
        (m', call + slept, go)
      else
        var (m', events, go) := PlayCommit(c, p, next, r);
        (m', call + events, go)
    else
      var (m', events, go) := PlayCommit(c, m.(poison := None, count := 0), next, r);
      (m', call + events, go)
  }

  /** The pass after the poll. */
  function PlayFetch(c: Config, f: Mem, bootstrap: bool, r: Round): (Mem, seq<Event>, Next) {
    if r.fetch.FetchFailed? then Catch(c, f, r.fetch.err, r.stopInCatch)
    else if r.stopInFetch || r.crash == BeforeHandler then (f, [], Halt(false))
    else if r.fetch.next == "" then Catch(c, f, Other, r.stopInCatch)
    else PlayResponse(c, f, r.fetch.next, bootstrap, r)
  }

  function Poll(state: SyncState): Event {
    Polled(if state.nextBatch == Some("") then None else state.nextBatch, state.Filter())
  }

  /** One pass of the loop. */
  function Play(c: Config, m: Mem, r: Round): (Mem, seq<Event>, Next) {
    if m.state.NeedsUpload() && r.upload == UploadFailed(Auth) then Catch(c, m, Auth, r.stopInCatch)
    else if r.crash == BeforeFilterSave then (m, [], Halt(false))
    else
      var (f, filtered) := PlayFilter(m, r);
      var (m', events, go) := PlayFetch(c, f, m.state.NeedsBootstrap(), r);
      (m', filtered + [Poll(f.state)] + events, go)
  }

  /** All passes of one incarnation; the script may end anywhere, which is one more way to die. */
  function PlayAll(c: Config, m: Mem, rounds: seq<Round>): (Mem, seq<Event>, Next)
    decreases |rounds|
  {
    if rounds == [] then (m, [], Continue)
    else
      var (m', events, next) := Play(c, m, rounds[0]);
      if next.Halt? then (m', events, next)
      else
        var (last, more, end) := PlayAll(c, m', rounds[1..]);
        (last, events + more, end)
  }

  function Boot(c: Config, file: Option<SyncState>): Mem {
    Mem(LoadSyncState(file, c.user), file, None, 0, c.minBackoff)
  }

  class SyncLoop {
    const config: Config
    var file: Option<SyncState>
    var stopped: bool
    var fatal: bool

    constructor (user: string, minBackoff: int, maxBackoff: int, file: Option<SyncState>)
      ensures config.user == user && 1 <= config.minBackoff <= config.maxBackoff
      ensures this.file == file && stopped && !fatal
    {
      var min := if minBackoff > 1 then minBackoff else 1;
      config := Config(user, min, if maxBackoff > min then maxBackoff else min);
      this.file := file;
      stopped, fatal := true, false;
    }

    /** The catch block. */
    method Caught(m: Mem, err: Err, stopped: bool) returns (m': Mem, events: seq<Event>, next: Next)
      ensures (m', events, next) == Catch(config, m, err, stopped)
    {
      if stopped || err == Abort {
        return m, [], Halt(false);
      }
      if err == Auth {
        return m, [], Halt(true);
      }
      events := [Slept(m.backoff)];
      return m.(backoff := Clamp(m.backoff * 2, config.minBackoff, config.maxBackoff)), events, Continue;
    }

    /** A response with a token: the handler call, the poison counter and the commit. */
    method Respond(m: Mem, token: Token, needBootstrap: bool, r: Round) returns (m': Mem, events: seq<Event>, next: Next)
      ensures (m', events, next) == PlayResponse(config, m, token, needBootstrap, r)
    {
      hide Catch;
      var state, poison, count := m.state, m.poison, m.count;
      var slept: seq<Event>;
      events := [Called(state.nextBatch, token, needBootstrap, r.handled.Ok?)];
      if r.handled.Threw? {
        var key := BatchKey(state);
        if poison == Some(key) {
          count := count + 1;
        } else {
          poison, count := Some(key), 1;
        }
        if count <= MAX_POISON_RETRIES {
          m', slept, next := Caught(m.(poison := poison, count := count), r.handled.err, r.stopInCatch);
          return m', events + slept, next;
        }
      }
      poison, count := None, 0;
      ghost var call := events;
      events := events + [Moved(state.nextBatch, token)];
      m' := m.(state := Committed(config, state, token), poison := poison, count := count);
      if r.crash == BeforeSave {
        return m', events, Halt(false);
      }
      if !r.saved {
        m', slept, next := Caught(m', Other, r.stopInCatch);
        Assoc(call, [Moved(state.nextBatch, token)], slept);
        return m', events + slept, next;
      }
      Assoc(call, [Moved(state.nextBatch, token)], [Persisted(token)]);
      return m'.(file := Some(m'.state), backoff := config.minBackoff), events + [Persisted(token)], Continue;
    }

    /** The body of the loop. */
    method Pass(m: Mem, r: Round) returns (m': Mem, events: seq<Event>, next: Next)
      ensures (m', events, next) == Play(config, m, r)
    {
      hide Catch;
      hide PlayResponse;
      m', events := m, [];
      var needBootstrap := m.state.NeedsBootstrap();
      if m.state.NeedsUpload() {
        if r.upload == UploadFailed(Auth) {
          m', events, next := Caught(m, Auth, r.stopInCatch);
          return;
        } else if r.crash == BeforeFilterSave {
          return m, [], Halt(false);
        } else if r.upload.Uploaded? && r.filterSaved {
          m' := m.(state := m.state.(filterId := Some(r.upload.id), filterKind := Some(Runtime)));
          m' := m'.(file := Some(m'.state));
          events := [FilterSaved(r.upload.id)];
        } else {
          m' := m.(state := m.state.(filterId := None, filterKind := None));
          events := [FilterFailed];
        }
      } else if r.crash == BeforeFilterSave {
        return m, [], Halt(false);
      }
      events := events + [Poll(m'.state)];
      var more: seq<Event> := [];
      if r.fetch.FetchFailed? {
        m', more, next := Caught(m', r.fetch.err, r.stopInCatch);
      } else if r.stopInFetch || r.crash == BeforeHandler {
        next := Halt(false);
      } else if r.fetch.next == "" {
        m', more, next := Caught(m', Other, r.stopInCatch);
      } else {
        m', more, next := Respond(m', r.fetch.next, needBootstrap, r);
      }
      events := events + more;
    }

    /** The loop, from `start` until it stops or the script runs out. */
    method Loop(rounds: seq<Round>) returns (trace: seq<Event>)
      modifies this
      ensures var (m, events, next) := PlayAll(config, Boot(config, old(file)), rounds);
              file == m.file && trace == events && stopped == next.Halt? && fatal == (next == Halt(true))
    {
      stopped, fatal, trace := false, false, [];
      var m := Boot(config, file);
      var i := 0;
      ghost var goal := PlayAll(config, m, rounds);
      assert rounds[0..] == rounds && [] + goal.1 == goal.1;
      while i < |rounds| && !stopped
        invariant 0 <= i <= |rounds| && file == m.file
        invariant !stopped ==>
            var (last, events, next) := PlayAll(config, m, rounds[i..]);
            goal == (last, trace + events, next) && !fatal
        invariant stopped ==> goal == (m, trace, Halt(fatal))
        decreases |rounds| - i
      {
        assert rounds[i..][1..] == rounds[i + 1..];
        var m', events, next := Pass(m, rounds[i]);
        ghost var rest := PlayAll(config, m', rounds[i + 1..]).1;
        assert trace + (events + rest) == trace + events + rest;
        m, trace, file := m', trace + events, m'.file;
        if next.Halt? {
          stopped, fatal := true, next.fatal;
        }
        i := i + 1;
      }
      assert trace + [] == trace;
    }
  }

  // ------------------------------------------------------------------- whole lives

  function BootEvent(state: SyncState): Event {
    Started(state.nextBatch, if state.NeedsUpload() then None else state.filterId)
  }

  /** Incarnations one after another, each booting from the file the previous one left: the trace
      of them all and the last file. */
  ghost function Life(c: Config, file: Option<SyncState>, lives: seq<seq<Round>>): (seq<Event>, Option<SyncState>)
    decreases |lives|
  {
    if lives == [] then ([], file)
    else
      var (m, events, _) := PlayAll(c, Boot(c, file), lives[0]);
      var (trace, last) := Life(c, m.file, lives[1..]);
      ([BootEvent(Boot(c, file).state)] + events + trace, last)
  }

  /** What a file holds for a user: its token, a usable filter, and whether the bootstrap is done. Nothing
      when there is no file, or it is another user's. */
  datatype Holds = Holds(token: Option<Token>, filter: Option<string>, done: bool)

  ghost function Content(file: Option<SyncState>, user: string): Holds {
    if file.None? || (user != "" && file.value.userId.Some? && file.value.userId.value !in {"", user}) then
      Holds(None, None, false)
    else
      var raw := file.value;
      Holds(raw.nextBatch, if raw.filterKind == Some(Runtime) && raw.filterId != Some("") then raw.filterId else None,
            raw.bootstrapDone)
  }

  /** The token in memory after a trace. */
  ghost function Current(t: seq<Event>): Option<Token> {
    if t == [] then None
    else match t[|t| - 1]
      case Started(token, _) => token
      case Moved(_, to) => Some(to)
      case _ => Current(t[..|t| - 1])
  }

  /** How often the handler failed since it last succeeded, the token moved or the loop started. */
  ghost function Fails(t: seq<Event>): nat {
    if t == [] then 0
    else match t[|t| - 1]
      case Called(_, _, _, ok) => if ok then 0 else 1 + Fails(t[..|t| - 1])
      case Started(_, _) => 0
      case Moved(_, _) => 0
      case _ => Fails(t[..|t| - 1])
  }

  /** The filter in memory. */
  ghost function FilterNow(t: seq<Event>): Option<string> {
    if t == [] then None
    else match t[|t| - 1]
      case Started(_, usable) => usable
      case FilterSaved(id) => if id == "" then None else Some(id)
      case FilterFailed => None
      case _ => FilterNow(t[..|t| - 1])
  }

  /** Has the token moved since the loop started? */
  ghost predicate MovedNow(t: seq<Event>) {
    t != [] &&
    match t[|t| - 1]
      case Started(_, _) => false
      case Moved(_, _) => true
      case _ => MovedNow(t[..|t| - 1])
  }

  /** How often the loop slept since it last wrote a token or started. */
  ghost function Sleeps(t: seq<Event>): nat {
    if t == [] then 0
    else match t[|t| - 1]
      case Slept(_) => 1 + Sleeps(t[..|t| - 1])
      case Started(_, _) => 0
      case Persisted(_) => 0
      case _ => Sleeps(t[..|t| - 1])
  }

  ghost predicate IsWrite(e: Event) {
    e.Persisted? || e.FilterSaved?
  }

  /** What the file holds after a trace, given what it held first: every write puts there what is in memory. */
  ghost function Written(first: Holds, t: seq<Event>): Holds {
    if t == [] then first
    else if IsWrite(t[|t| - 1]) then Holds(Current(t), FilterNow(t), Done(first, t))
    else Written(first, t[..|t| - 1])
  }

  /** Is the bootstrap done, as far as memory knows? The file said so, or the token has moved since. */
  ghost predicate Done(first: Holds, t: seq<Event>) {
    MovedNow(t) || Stored(first, t)
  }

  ghost predicate Stored(first: Holds, t: seq<Event>) {
    if t == [] then first.done
    else if IsWrite(t[|t| - 1]) then MovedNow(t[..|t| - 1]) || Stored(first, t[..|t| - 1])
    else Stored(first, t[..|t| - 1])
  }

  /** The minimum doubled so often, up to the maximum. */
  ghost function Doubling(c: Config, n: nat): int {
    if n == 0 then c.minBackoff
    else if 2 * Doubling(c, n - 1) < c.maxBackoff then 2 * Doubling(c, n - 1)
    else c.maxBackoff
  }

  /** A start takes up what the file holds. */
  ghost predicate StartedAt(first: Holds, t: seq<Event>, k: nat)
    requires k < |t|
  {
    t[k].Started? ==> t[k].token == Written(first, t[..k]).token && t[k].usable == Written(first, t[..k]).filter
  }

  /** A filter is uploaded only when there is none. */
  ghost predicate FilterAt(t: seq<Event>, k: nat)
    requires k < |t|
  {
    t[k].FilterSaved? || t[k].FilterFailed? ==> FilterNow(t[..k]) == None
  }

  /** A poll is made with the token and the filter in memory, and without a filter only when the upload just
      gave none. */
  ghost predicate PolledAt(t: seq<Event>, k: nat)
    requires k < |t|
  {
    t[k].Polled? ==>
      && t[k].sinceToken == (if Current(t[..k]) == Some("") then None else Current(t[..k]))
      && t[k].filter == FilterNow(t[..k])
      && (t[k].filter.None? ==> k > 0 && t[k - 1] in {FilterFailed, FilterSaved("")})
  }

  /** A handler call is on the answer to the token in memory. It is a bootstrap call exactly when there is no
      token, or when neither the file said that the bootstrap is done nor the token has moved since. */
  ghost predicate CalledAt(first: Holds, t: seq<Event>, k: nat)
    requires k < |t|
  {
    t[k].Called? ==>
      && t[k].since == Current(t[..k])
      && (t[k].bootstrap <==> t[k].since.None? || !Done(first, t[..k]))
  }

  /** A move follows a handler call on the answer to the current token, and that call succeeded or
      was the fourth in a row to fail. */
  ghost predicate EarnedAt(t: seq<Event>, k: nat)
    requires k < |t|
  {
    t[k].Moved? ==>
      && k > 0 && t[k - 1].Called?
      && t[k].from == Current(t[..k])
      && t[k - 1].since == t[k].from && t[k - 1].next == t[k].to
      && (t[k - 1].ok || Fails(t[..k]) == MAX_POISON_RETRIES + 1)
  }

  /** A token is written right after the move to it. */
  ghost predicate PersistedAt(t: seq<Event>, k: nat)
    requires k < |t|
  {
    t[k].Persisted? ==> k > 0 && t[k - 1].Moved? && t[k - 1].to == t[k].saved
  }

  ghost predicate SleptAt(c: Config, t: seq<Event>, k: nat)
    requires k < |t|
  {
    t[k].Slept? ==> t[k].ms == Doubling(c, Sleeps(t[..k]))
  }

  ghost predicate SoundAt(c: Config, first: Holds, t: seq<Event>, k: nat)
    requires k < |t|
  {
    && StartedAt(first, t, k) && FilterAt(t, k) && PolledAt(t, k) && CalledAt(first, t, k)
    && EarnedAt(t, k) && PersistedAt(t, k) && SleptAt(c, t, k)
  }

  ghost predicate Sound(c: Config, first: Holds, t: seq<Event>) {
    forall k :: 0 <= k < |t| ==> SoundAt(c, first, t, k)
  }

  ghost predicate WroteSome(t: seq<Event>) {
    t != [] && (IsWrite(t[|t| - 1]) || WroteSome(t[..|t| - 1]))
  }

  /** A file that was written names its user when it holds a token. */
  ghost predicate Owned(c: Config, t: seq<Event>, file: Option<SyncState>) {
    WroteSome(t) ==> file.Some? && (c.user != "" && file.value.nextBatch.Some? ==> file.value.userId == Some(c.user))
  }

  /** What the trace says about the file alone: it survives a crash. */
  ghost predicate FileInv(c: Config, first: Holds, t: seq<Event>, file: Option<SyncState>) {
    && Sound(c, first, t) && Content(file, c.user) == Written(first, t) && Written(first, t).done == Stored(first, t)
    && Owned(c, t, file)
  }

  ghost predicate Inv(c: Config, first: Holds, t: seq<Event>, m: Mem) {
    && FileInv(c, first, t, m.file)
    && t != []
    && Current(t) == m.state.nextBatch
    && FilterNow(t) == (if m.state.NeedsUpload() then None else m.state.filterId)
    && m.state.bootstrapDone == Done(first, t)
    && (m.state.userId.Some? ==> m.state.userId.value == c.user)
    && (c.user != "" && m.state.nextBatch.Some? ==> m.state.userId.Some?)
    && Fails(t) == m.count <= MAX_POISON_RETRIES
    && m.poison == (if m.count == 0 then None else Some(BatchKey(m.state)))
    && m.backoff == Doubling(c, Sleeps(t))
    && c.minBackoff <= m.backoff <= c.maxBackoff
  }

  lemma Append(c: Config, first: Holds, t: seq<Event>, e: Event)
    requires Sound(c, first, t) && SoundAt(c, first, t + [e], |t|)
    ensures Sound(c, first, t + [e])
    ensures (t + [e])[..|t|] == t
  {
    var u := t + [e];
    forall k | 0 <= k < |u| ensures SoundAt(c, first, u, k) {
      if k < |t| {
        assert SoundAt(c, first, t, k);
        assert u[..k] == t[..k];
      }
    }
  }

  lemma Assoc(a: seq<Event>, b: seq<Event>, c: seq<Event>)
    ensures a + (b + c) == a + b + c
  {
  }

  ghost predicate ConfigOk(c: Config) {
    1 <= c.minBackoff <= c.maxBackoff
  }

  lemma {:induction false} DoublingBounds(c: Config, n: nat)
    requires ConfigOk(c)
    ensures c.minBackoff <= Doubling(c, n) <= c.maxBackoff
    ensures Clamp(Doubling(c, n) * 2, c.minBackoff, c.maxBackoff) == Doubling(c, n + 1)
  {
    if n > 0 {
      DoublingBounds(c, n - 1);
    }
  }

  lemma CatchInv(c: Config, first: Holds, t: seq<Event>, m: Mem, err: Err, stopped: bool)
    requires Inv(c, first, t, m) && ConfigOk(c)
    ensures Inv(c, first, t + Catch(c, m, err, stopped).1, Catch(c, m, err, stopped).0)
  {
    var (m', events, go) := Catch(c, m, err, stopped);
    assert t + [] == t;
    if go.Continue? {
      var e := Slept(m.backoff);
      assert (t + [e])[..|t|] == t;
      DoublingBounds(c, Sleeps(t));
      DoublingBounds(c, Sleeps(t) + 1);
      Append(c, first, t, e);
    }
  }

  lemma FilterInv(c: Config, first: Holds, t: seq<Event>, m: Mem, r: Round)
    requires Inv(c, first, t, m)
    ensures var (f, events) := PlayFilter(m, r);
            && Inv(c, first, t + events, f)
            && f.state.nextBatch == m.state.nextBatch && f.state.bootstrapDone == m.state.bootstrapDone
            && (f.state.Filter().None? ==> var u := t + events; u[|u| - 1] in {FilterFailed, FilterSaved("")})
            && (f.state.filterKind == Some(Runtime) || f.state.filterId.None?)
  {
    var events := PlayFilter(m, r).1;
    assert t + [] == t;
    if events != [] {
      var e := events[0];
      assert (t + [e])[..|t|] == t;
      Append(c, first, t, e);
    }
  }

  lemma PollInv(c: Config, first: Holds, t: seq<Event>, f: Mem)
    requires Inv(c, first, t, f)
    requires f.state.Filter().None? ==> t[|t| - 1] in {FilterFailed, FilterSaved("")}
    requires f.state.filterKind == Some(Runtime) || f.state.filterId.None?
    ensures Inv(c, first, t + [Poll(f.state)], f)
  {
    var e := Poll(f.state);
    assert (t + [e])[..|t|] == t;
    Append(c, first, t, e);
  }

  /** The trace after a handler call; the counter is for the caller to bring up to date. */
  lemma CallInv(c: Config, first: Holds, t: seq<Event>, m: Mem, next: Token, ok: bool)
    requires Inv(c, first, t, m)
    ensures var u := t + [Called(m.state.nextBatch, next, m.state.NeedsBootstrap(), ok)];
            && FileInv(c, first, u, m.file) && u[..|t|] == t
            && Current(u) == Current(t) && FilterNow(u) == FilterNow(t) && Sleeps(u) == Sleeps(t)
            && Done(first, u) == Done(first, t)
            && Fails(u) == if ok then 0 else 1 + Fails(t)
  {
    var e := Called(m.state.nextBatch, next, m.state.NeedsBootstrap(), ok);
    assert (t + [e])[..|t|] == t;
    Append(c, first, t, e);
  }

  /** Before a commit: like the invariant, with the counter cleared and the failures still in the trace. */
  ghost predicate BeforeMove(c: Config, first: Holds, t: seq<Event>, m: Mem, next: Token) {
    && FileInv(c, first, t, m.file)
    && Current(t) == m.state.nextBatch
    && FilterNow(t) == (if m.state.NeedsUpload() then None else m.state.filterId)
    && m.poison == None && m.count == 0
    && m.backoff == Doubling(c, Sleeps(t)) && c.minBackoff <= m.backoff <= c.maxBackoff
    && t != [] && var call := t[|t| - 1];
    && call.Called? && call.since == m.state.nextBatch && call.next == next
    && (call.ok || Fails(t) == MAX_POISON_RETRIES + 1)
  }

  lemma MoveInv(c: Config, first: Holds, t: seq<Event>, m: Mem, next: Token)
    requires BeforeMove(c, first, t, m, next)
    ensures Inv(c, first, t + [Moved(m.state.nextBatch, next)], m.(state := Committed(c, m.state, next)))
  {
    var e := Moved(m.state.nextBatch, next);
    assert (t + [e])[..|t|] == t;
    Append(c, first, t, e);
  }

  lemma SaveInv(c: Config, first: Holds, t: seq<Event>, m: Mem, next: Token)
    requires Inv(c, first, t, m) && m.state.userId == Some(c.user) && m.count == 0
    requires t[|t| - 1].Moved? && t[|t| - 1].to == next && ConfigOk(c)
    ensures Inv(c, first, t + [Persisted(next)], m.(file := Some(m.state), backoff := c.minBackoff))
  {
    var e := Persisted(next);
    assert (t + [e])[..|t|] == t;
    Append(c, first, t, e);
  }

  lemma CommitInv(c: Config, first: Holds, t: seq<Event>, m: Mem, next: Token, r: Round)
    requires BeforeMove(c, first, t, m, next) && ConfigOk(c)
    ensures var (m', events, _) := PlayCommit(c, m, next, r);
            Inv(c, first, t + events, m')
  {
    var moved, m' := [Moved(m.state.nextBatch, next)], m.(state := Committed(c, m.state, next));
    MoveInv(c, first, t, m, next);
    if r.crash != BeforeSave {
      if r.saved {
        SaveInv(c, first, t + moved, m', next);
        Assoc(t, moved, [Persisted(next)]);
      } else {
        CatchInv(c, first, t + moved, m', Other, r.stopInCatch);
        Assoc(t, moved, Catch(c, m', Other, r.stopInCatch).1);
      }
    }
  }

  lemma ResponseInv(c: Config, first: Holds, t: seq<Event>, m: Mem, next: Token, r: Round)
    requires Inv(c, first, t, m) && ConfigOk(c)
    ensures var (m', events, _) := PlayResponse(c, m, next, m.state.NeedsBootstrap(), r);
            Inv(c, first, t + events, m')
  {
    hide Catch;
    hide PlayCommit;
    var call := [Called(m.state.nextBatch, next, m.state.NeedsBootstrap(), r.handled.Ok?)];
    CallInv(c, first, t, m, next, r.handled.Ok?);
    var (p, retry) := Poisoned(m);
    if r.handled.Threw? && retry {
      CatchInv(c, first, t + call, p, r.handled.err, r.stopInCatch);
      Assoc(t, call, Catch(c, p, r.handled.err, r.stopInCatch).1);
    } else {
      var q := if r.handled.Ok? then m.(poison := None, count := 0) else p;
      CommitInv(c, first, t + call, q, next, r);
      Assoc(t, call, PlayCommit(c, q, next, r).1);
    }
  }

  lemma FetchInv(c: Config, first: Holds, t: seq<Event>, f: Mem, r: Round)
    requires Inv(c, first, t, f) && ConfigOk(c)
    ensures var (m', events, _) := PlayFetch(c, f, f.state.NeedsBootstrap(), r);
            Inv(c, first, t + events, m')
  {
    hide Inv;
    hide Catch;
    hide PlayResponse;
    assert t + [] == t;
    if r.fetch.Response? {
      CatchInv(c, first, t, f, Other, r.stopInCatch);
      ResponseInv(c, first, t, f, r.fetch.next, r);
    } else {
      CatchInv(c, first, t, f, r.fetch.err, r.stopInCatch);
    }
  }

  lemma PlayInv(c: Config, first: Holds, t: seq<Event>, m: Mem, r: Round)
    requires Inv(c, first, t, m) && ConfigOk(c)
    ensures var (m', events, _) := Play(c, m, r);
            Inv(c, first, t + events, m')
  {
    hide Inv;
    hide Catch;
    hide PlayFetch;
    hide PlayFilter;
    assert t + [] == t;
    CatchInv(c, first, t, m, Auth, r.stopInCatch);
    FilterInv(c, first, t, m, r);
    var (f, filtered) := PlayFilter(m, r);
    PollInv(c, first, t + filtered, f);
    var u := t + filtered + [Poll(f.state)];
    FetchInv(c, first, u, f, r);
    Assoc(t, filtered, [Poll(f.state)]);
    Assoc(t, filtered + [Poll(f.state)], PlayFetch(c, f, f.state.NeedsBootstrap(), r).1);
  }

  lemma {:induction false} PlayAllInv(c: Config, first: Holds, t: seq<Event>, m: Mem, rounds: seq<Round>)
    requires Inv(c, first, t, m) && ConfigOk(c)
    ensures var (m', events, _) := PlayAll(c, m, rounds);
            Inv(c, first, t + events, m')
    decreases |rounds|
  {
    hide Inv;
    hide Play;
    assert t + [] == t;
    if rounds != [] {
      var (m', events, next) := Play(c, m, rounds[0]);
      PlayInv(c, first, t, m, rounds[0]);
      if next.Continue? {
        PlayAllInv(c, first, t + events, m', rounds[1..]);
        Assoc(t, events, PlayAll(c, m', rounds[1..]).1);
      }
    }
  }

  lemma BootInv(c: Config, first: Holds, t: seq<Event>, file: Option<SyncState>)
    requires FileInv(c, first, t, file) && ConfigOk(c)
    ensures Inv(c, first, t + [BootEvent(Boot(c, file).state)], Boot(c, file))
  {
    var e := BootEvent(Boot(c, file).state);
    assert (t + [e])[..|t|] == t;
    Append(c, first, t, e);
  }

  lemma InvFile(c: Config, first: Holds, t: seq<Event>, m: Mem)
    requires Inv(c, first, t, m)
    ensures FileInv(c, first, t, m.file)
  {
  }

  lemma {:induction false} LifeInv(c: Config, first: Holds, t: seq<Event>, file: Option<SyncState>, lives: seq<seq<Round>>)
    requires FileInv(c, first, t, file) && ConfigOk(c)
    ensures var (trace, last) := Life(c, file, lives);
            FileInv(c, first, t + trace, last)
    decreases |lives|
  {
    hide FileInv;
    hide Inv;
    hide Boot;
    if lives == [] {
      assert t + [] == t;
    } else {
      var start := [BootEvent(Boot(c, file).state)];
      var (m, events, _) := PlayAll(c, Boot(c, file), lives[0]);
      BootInv(c, first, t, file);
      PlayAllInv(c, first, t + start, Boot(c, file), lives[0]);
      InvFile(c, first, t + start + events, m);
      LifeInv(c, first, t + start + events, m.file, lives[1..]);
      var trace := Life(c, m.file, lives[1..]).0;
      Assoc(t, start, events);
      Assoc(t, start + events, trace);
    }
  }

  /** Over any life, with crashes and restarts of the same user, every event of the trace is in order: a
      start takes up what the file holds, filters are uploaded only when there is none, polls go out with
      the token and the filter in memory, calls are on the answer to that token and are bootstrap calls
      exactly when they must be, moves are earned, writes follow moves, and sleeps double. The file holds
      in the end what was written last, and a token only under its user's name. */
  lemma TokenDiscipline(c: Config, file: Option<SyncState>, lives: seq<seq<Round>>)
    requires 1 <= c.minBackoff <= c.maxBackoff
    ensures var (trace, last) := Life(c, file, lives); var first := Content(file, c.user);
            Sound(c, first, trace) && Content(last, c.user) == Written(first, trace) && Owned(c, trace, last)
  {
    var none: seq<Event> := [];
    LifeInv(c, Content(file, c.user), none, file, lives);
    assert none + Life(c, file, lives).0 == Life(c, file, lives).0;
  }

  /** The token was in memory at some point of the present incarnation. */
  ghost predicate Behind(t: seq<Event>, token: Option<Token>) {
    exists i :: 0 < i <= |t| && Current(t[..i]) == token && forall j :: i <= j < |t| ==> !t[j].Started?
  }

  lemma SoundPrefix(c: Config, first: Holds, t: seq<Event>, n: nat)
    requires Sound(c, first, t) && n <= |t|
    ensures Sound(c, first, t[..n])
  {
    var u := t[..n];
    forall k | 0 <= k < n ensures SoundAt(c, first, u, k) {
      assert SoundAt(c, first, t, k);
      assert u[..k] == t[..k];
    }
  }

  lemma {:induction false} WrittenIsBehind(c: Config, first: Holds, t: seq<Event>)
    requires Sound(c, first, t) && t != [] && t[0].Started?
    ensures Behind(t, Written(first, t).token)
    decreases |t|
  {
    var last := |t| - 1;
    var u := t[..last];
    assert SoundAt(c, first, t, last);
    if t[last].Started? || IsWrite(t[last]) {
      assert t[..|t|] == t;
    } else {
      SoundPrefix(c, first, t, last);
      hide SoundAt;
      WrittenIsBehind(c, first, u);
      var i :| 0 < i <= |u| && Current(u[..i]) == Written(first, u).token && forall j :: i <= j < |u| ==> !u[j].Started?;
      assert u[..i] == t[..i];
      assert forall j :: i <= j < |u| ==> u[j] == t[j];
    }
  }

  /** So the file never runs ahead: its token is one that memory held in the present incarnation. */
  lemma FileIsBehind(c: Config, file: Option<SyncState>, lives: seq<seq<Round>>)
    requires 1 <= c.minBackoff <= c.maxBackoff && lives != []
    ensures var (trace, last) := Life(c, file, lives);
            Behind(trace, Content(last, c.user).token)
  {
    TokenDiscipline(c, file, lives);
    WrittenIsBehind(c, Content(file, c.user), Life(c, file, lives).0);
  }

  /** From nothing, whoever is done has a token. */
  lemma {:induction false} DoneHasToken(c: Config, t: seq<Event>)
    requires Sound(c, Holds(None, None, false), t)
    ensures var none := Holds(None, None, false);
            && (Done(none, t) ==> Current(t).Some?)
            && (Stored(none, t) ==> Written(none, t).token.Some?)
    decreases |t|
  {
    if t != [] {
      var last := |t| - 1;
      var u := t[..last];
      SoundPrefix(c, Holds(None, None, false), t, last);
      DoneHasToken(c, u);
      assert SoundAt(c, Holds(None, None, false), t, last);
    }
  }

  /** In a life that begins without a file, or with another user's, a call is a bootstrap call exactly when
      the token has neither moved since the last start nor been written after a move. */
  lemma FreshLifeBootstraps(c: Config, file: Option<SyncState>, lives: seq<seq<Round>>, k: nat)
    requires 1 <= c.minBackoff <= c.maxBackoff
    requires file.Some? ==> c.user != "" && file.value.userId.Some? && file.value.userId.value !in {"", c.user}
    requires k < |Life(c, file, lives).0| && Life(c, file, lives).0[k].Called?
    ensures var t, none := Life(c, file, lives).0, Holds(None, None, false);
            t[k].bootstrap <==> !MovedNow(t[..k]) && !Stored(none, t[..k])
  {
    TokenDiscipline(c, file, lives);
    var t := Life(c, file, lives).0;
    assert SoundAt(c, Holds(None, None, false), t, k);
    SoundPrefix(c, Holds(None, None, false), t, k);
    DoneHasToken(c, t[..k]);
  }

  function Calls(events: seq<Event>): nat {
    if events == [] then 0 else (if events[0].Called? then 1 else 0) + Calls(events[1..])
  }

  ghost predicate Moves(events: seq<Event>) {
    exists i :: 0 <= i < |events| && events[i].Moved?
  }

  /** The poll of this round is answered with a token. */
  predicate Answered(r: Round) {
    r.fetch.Response? && r.fetch.next != ""
  }

  function CountAnswered(rounds: seq<Round>): nat {
    if rounds == [] then 0 else (if Answered(rounds[0]) then 1 else 0) + CountAnswered(rounds[1..])
  }

  /** How often the handler has failed on the token in memory. */
  function Failures(m: Mem): nat {
    if m.poison == Some(BatchKey(m.state)) then m.count else 0
  }

  lemma {:induction false} CallsConcat(a: seq<Event>, b: seq<Event>)
    ensures Calls(a + b) == Calls(a) + Calls(b)
    ensures Moves(a + b) <==> Moves(a) || Moves(b)
    decreases |a|
  {
    var all := a + b;
    assert forall i :: 0 <= i < |a| ==> all[i] == a[i];
    assert forall i :: 0 <= i < |b| ==> all[|a| + i] == b[i];
    if a == [] {
      assert all == b;
    } else {
      assert all[1..] == a[1..] + b;
      CallsConcat(a[1..], b);
    }
  }

  /** What the catch block adds to a trace is neither a call nor a move. */
  lemma SleepCounts(c: Config, m: Mem, err: Err, stopped: bool)
    ensures Calls(Catch(c, m, err, stopped).1) == 0 && !Moves(Catch(c, m, err, stopped).1)
    ensures Failures(Catch(c, m, err, stopped).0) == Failures(m)
    ensures Catch(c, m, err, stopped).0.state == m.state
  {
    var events := Catch(c, m, err, stopped).1;
    assert events != [] ==> events[1..] == [];
  }

  lemma CommitMoves(c: Config, m: Mem, next: Token, r: Round)
    ensures Moves(PlayCommit(c, m, next, r).1) && Calls(PlayCommit(c, m, next, r).1) == 0
  {
    var moved: seq<Event>, saved: seq<Event> := [Moved(m.state.nextBatch, next)], [Persisted(next)];
    assert moved[1..] == [] && saved[1..] == [] && moved[0].Moved? && saved[0].Persisted?;
    assert Calls(moved) == 0 && Calls(saved) == 0;
    CallsConcat(moved, saved);
    var m' := m.(state := Committed(c, m.state, next));
    SleepCounts(c, m', Other, r.stopInCatch);
    CallsConcat(moved, Catch(c, m', Other, r.stopInCatch).1);
  }

  lemma ResponseCounts(c: Config, m: Mem, next: Token, bootstrap: bool, r: Round)
    ensures var (m', events, go) := PlayResponse(c, m, next, bootstrap, r);
            && Calls(events) == 1
            && (!Moves(events) ==> Failures(m) + 1 <= MAX_POISON_RETRIES)
            && (!Moves(events) ==> Failures(m') == Failures(m) + 1 && m'.state.nextBatch == m.state.nextBatch)
  {
    hide PlayCommit;
    hide Moves;
    hide Catch;
    var call := [Called(m.state.nextBatch, next, bootstrap, r.handled.Ok?)];
    assert call[1..] == [] && Calls(call) == 1;
    var p := if r.handled.Threw? then Poisoned(m).0 else m.(poison := None, count := 0);
    CommitMoves(c, p, next, r);
    CallsConcat(call, PlayCommit(c, p, next, r).1);
    if r.handled.Threw? {
      SleepCounts(c, p, r.handled.err, r.stopInCatch);
      CallsConcat(call, Catch(c, p, r.handled.err, r.stopInCatch).1);
    }
  }

  lemma FilterCounts(m: Mem, r: Round)
    ensures var (f, events) := PlayFilter(m, r); var all := events + [Poll(f.state)];
            && Calls(all) == 0 && !Moves(all)
            && Failures(f) == Failures(m) && f.state.nextBatch == m.state.nextBatch
  {
    var (f, events) := PlayFilter(m, r);
    var poll := [Poll(f.state)];
    assert poll[1..] == [] && (events != [] ==> events[1..] == []);
    CallsConcat(events, poll);
  }

  /** A pass moves the token or counts the failure; it halts or answers the poll with one call. */
  lemma PassCounts(c: Config, m: Mem, r: Round)
    ensures var (m', events, next) := Play(c, m, r);
            && (!Moves(events) && next.Continue? ==>
                  Failures(m') == Failures(m) + Calls(events) && m'.state.nextBatch == m.state.nextBatch)
            && (!Moves(events) ==> Calls(events) == 0 || Failures(m) + Calls(events) <= MAX_POISON_RETRIES)
            && (next.Continue? ==> Calls(events) == if Answered(r) then 1 else 0)
  {
    hide PlayResponse;
    hide PlayFilter;
    hide Poll;
    hide Failures;
    var (f, filtered) := PlayFilter(m, r);
    var before := filtered + [Poll(f.state)];
    FilterCounts(m, r);
    SleepCounts(c, m, Auth, r.stopInCatch);
    SleepCounts(c, f, Other, r.stopInCatch);
    if r.fetch.FetchFailed? {
      SleepCounts(c, f, r.fetch.err, r.stopInCatch);
    } else {
      ResponseCounts(c, f, r.fetch.next, m.state.NeedsBootstrap(), r);
    }
    hide Moves;
    hide Catch;
    CallsConcat(before, PlayFetch(c, f, m.state.NeedsBootstrap(), r).1);
    NothingCounts();
  }

  lemma NothingCounts()
    ensures Calls([]) == 0 && !Moves([])
  {
  }

  lemma {:induction false} FewCallsWithoutMove(c: Config, m: Mem, rounds: seq<Round>)
    ensures var (_, events, next) := PlayAll(c, m, rounds);
            && (!Moves(events) ==> Calls(events) == 0 || Failures(m) + Calls(events) <= MAX_POISON_RETRIES)
            && (next.Continue? ==> Calls(events) == CountAnswered(rounds))
    decreases |rounds|
  {
    if rounds != [] {
      hide Play;
      hide Moves;
      hide Failures;
      var (m', events, next) := Play(c, m, rounds[0]);
      PassCounts(c, m, rounds[0]);
      if next.Continue? {
        FewCallsWithoutMove(c, m', rounds[1..]);
        CallsConcat(events, PlayAll(c, m', rounds[1..]).1);
      }
    }
  }

  /** A batch that keeps breaking the handler is skipped: whatever else happens between them, four
      answered polls of a loop that does not stop move the token, and so do any four handler calls. */
  lemma PoisonedBatchIsSkipped(c: Config, m: Mem, rounds: seq<Round>)
    ensures PlayAll(c, m, rounds).2.Continue? && CountAnswered(rounds) > MAX_POISON_RETRIES ==>
              Moves(PlayAll(c, m, rounds).1)
    ensures Calls(PlayAll(c, m, rounds).1) > MAX_POISON_RETRIES ==> Moves(PlayAll(c, m, rounds).1)
  {
    FewCallsWithoutMove(c, m, rounds);
  }

  // ------------------------------------------------------------ one pass, from the outside

  /** Is there no usable filter? */
  predicate Uploads(m: Mem) {
    m.state.filterKind != Some(Runtime) || m.state.filterId == None || m.state.filterId == Some("")
  }

  predicate Polls(m: Mem, r: Round) {
    !(Uploads(m) && r.upload == UploadFailed(Auth)) && r.crash != BeforeFilterSave
  }

  predicate CallsHandler(m: Mem, r: Round) {
    Polls(m, r) && Answered(r) && !r.stopInFetch && r.crash != BeforeHandler
  }

  predicate MovesToken(m: Mem, r: Round) {
    CallsHandler(m, r) && (r.handled.Ok? || Failures(m) >= MAX_POISON_RETRIES)
  }

  predicate WritesToken(m: Mem, r: Round) {
    MovesToken(m, r) && r.crash != BeforeSave && r.saved
  }

  /** The error that reaches the catch block, if any. */
  function ErrorOf(m: Mem, r: Round): Option<Err> {
    if Uploads(m) && r.upload == UploadFailed(Auth) then Some(Auth)
    else if Polls(m, r) && r.fetch.FetchFailed? then Some(r.fetch.err)
    else if Polls(m, r) && !Answered(r) && !r.stopInFetch && r.crash != BeforeHandler then Some(Other)
    else if CallsHandler(m, r) && !MovesToken(m, r) then Some(r.handled.err)
    else if MovesToken(m, r) && r.crash != BeforeSave && !r.saved then Some(Other)
    else None
  }

  datatype Kind = Starting | SavingFilter(id: string) | LackingFilter | Polling | Calling | Moving | Saving | Sleeping

  function KindOf(e: Event): Kind {
    match e
    case Started(_, _) => Starting
    case FilterSaved(id) => SavingFilter(id)
    case FilterFailed => LackingFilter
    case Polled(_, _) => Polling
    case Called(_, _, _, _) => Calling
    case Moved(_, _) => Moving
    case Persisted(_) => Saving
    case Slept(_) => Sleeping
  }

  ghost predicate Has(events: seq<Event>, kind: Kind) {
    exists i :: 0 <= i < |events| && KindOf(events[i]) == kind
  }

  lemma HasConcat(a: seq<Event>, b: seq<Event>, kind: Kind)
    ensures Has(a + b, kind) <==> Has(a, kind) || Has(b, kind)
  {
    var all := a + b;
    assert forall i :: 0 <= i < |a| ==> all[i] == a[i];
    assert forall i :: 0 <= i < |b| ==> all[|a| + i] == b[i];
  }

  lemma HasOne(e: Event, kind: Kind)
    ensures Has([e], kind) <==> KindOf(e) == kind
    ensures !Has([], kind)
  {
    assert KindOf([e][0]) == KindOf(e);
  }

  /** Does a pass show an event of this kind? In terms of what the outside decided. */
  ghost predicate MustShow(m: Mem, r: Round, kind: Kind) {
    match kind
    case Starting => false
    case SavingFilter(id) => Uploads(m) && Polls(m, r) && r.upload == Uploaded(id) && r.filterSaved
    case LackingFilter => Uploads(m) && Polls(m, r) && !(r.upload.Uploaded? && r.filterSaved)
    case Polling => Polls(m, r)
    case Calling => CallsHandler(m, r)
    case Moving => MovesToken(m, r)
    case Saving => WritesToken(m, r)
    case Sleeping => ErrorOf(m, r) == Some(Other) && !r.stopInCatch
  }

  lemma CatchShows(c: Config, m: Mem, err: Err, stopped: bool, kind: Kind)
    ensures Has(Catch(c, m, err, stopped).1, kind) <==> kind == Sleeping && err == Other && !stopped
    ensures Catch(c, m, err, stopped).2
            == if stopped || err == Abort then Halt(false) else if err == Auth then Halt(true) else Continue
  {
    HasOne(Slept(m.backoff), kind);
  }

  lemma CommitShows(c: Config, m: Mem, next: Token, r: Round, kind: Kind)
    ensures var (_, events, go) := PlayCommit(c, m, next, r);
            && (Has(events, kind) <==>
                  || kind == Moving || (kind == Saving && r.crash != BeforeSave && r.saved)
                  || (kind == Sleeping && r.crash != BeforeSave && !r.saved && !r.stopInCatch))
            && go == if r.crash != BeforeSave && (r.saved || !r.stopInCatch) then Continue else Halt(false)
  {
    hide Catch;
    hide Has;
    var moved := Moved(m.state.nextBatch, next);
    var m' := m.(state := Committed(c, m.state, next));
    CatchShows(c, m', Other, r.stopInCatch, kind);
    HasOne(moved, kind);
    HasOne(Persisted(next), kind);
    HasConcat([moved], [Persisted(next)], kind);
    HasConcat([moved], Catch(c, m', Other, r.stopInCatch).1, kind);
  }

  lemma ResponseShows(c: Config, m: Mem, next: Token, bootstrap: bool, r: Round, kind: Kind)
    ensures var moves := r.handled.Ok? || Failures(m) >= MAX_POISON_RETRIES;
            var (_, events, go) := PlayResponse(c, m, next, bootstrap, r);
            && (Has(events, kind) <==>
                  || kind == Calling || (kind == Moving && moves)
                  || (kind == Saving && moves && r.crash != BeforeSave && r.saved)
                  || (&& kind == Sleeping && !r.stopInCatch
                      && if moves then r.crash != BeforeSave && !r.saved else r.handled.err == Other))
            && go == if moves then if r.crash != BeforeSave && (r.saved || !r.stopInCatch) then Continue else Halt(false)
                     else if r.stopInCatch || r.handled.err == Abort then Halt(false)
                     else if r.handled.err == Auth then Halt(true) else Continue
  {
    hide Catch;
    hide PlayCommit;
    hide Has;
    var call := Called(m.state.nextBatch, next, bootstrap, r.handled.Ok?);
    var p := if r.handled.Threw? then Poisoned(m).0 else m.(poison := None, count := 0);
    HasOne(call, kind);
    CommitShows(c, p, next, r, kind);
    HasConcat([call], PlayCommit(c, p, next, r).1, kind);
    if r.handled.Threw? {
      CatchShows(c, p, r.handled.err, r.stopInCatch, kind);
      HasConcat([call], Catch(c, p, r.handled.err, r.stopInCatch).1, kind);
    }
  }

  lemma FilterShows(m: Mem, r: Round, kind: Kind)
    requires Polls(m, r)
    ensures var (f, events) := PlayFilter(m, r);
            && (Has(events + [Poll(f.state)], kind) <==>
                  kind == Polling || (!kind.Sleeping? && !kind.Calling? && !kind.Moving? && !kind.Saving? && MustShow(m, r, kind)))
            && Failures(f) == Failures(m)
  {
    var (f, events) := PlayFilter(m, r);
    hide Has;
    HasOne(FilterFailed, kind);
    if r.upload.Uploaded? {
      HasOne(FilterSaved(r.upload.id), kind);
    }
    HasOne(Poll(f.state), kind);
    HasConcat(events, [Poll(f.state)], kind);
  }

  /** One pass, exactly: which events it shows, and whether the loop goes on, follow from the filter and the
      failures in memory and from what the outside decided. */
  lemma PassExactly(c: Config, m: Mem, r: Round, kind: Kind)
    ensures var (_, events, next) := Play(c, m, r);
            && (Has(events, kind) <==> MustShow(m, r, kind))
            && next == (match ErrorOf(m, r)
                        case Some(err) =>
                          if r.stopInCatch || err == Abort then Halt(false) else if err == Auth then Halt(true) else Continue
                        case None => if WritesToken(m, r) then Continue else Halt(false))
  {
    hide Catch;
    hide PlayResponse;
    hide PlayFilter;
    hide Poll;
    hide Has;
    hide Failures;
    var (f, filtered) := PlayFilter(m, r);
    var before := filtered + [Poll(f.state)];
    CatchShows(c, m, Auth, r.stopInCatch, kind);
    HasOne(FilterFailed, kind);
    if Polls(m, r) {
      FilterShows(m, r, kind);
      HasConcat(before, PlayFetch(c, f, m.state.NeedsBootstrap(), r).1, kind);
      CatchShows(c, f, Other, r.stopInCatch, kind);
      if r.fetch.FetchFailed? {
        CatchShows(c, f, r.fetch.err, r.stopInCatch, kind);
      } else {
        ResponseShows(c, f, r.fetch.next, m.state.NeedsBootstrap(), r, kind);
      }
    }
  }
}
