/** The retry loop of the HTTP client: what is replayed, how often, and how long it waits.

    The world answers attempt k, made with a given access token, with a `Reply`. Times are real
    numbers of milliseconds, as the source's are. */
module Http {
  import opened Optional

  type Unit = r: real | 0.0 <= r < 1.0 witness 0.0

  datatype Failure =
    | ApiError(status: int, errcode: Option<string>, retryAfterMs: Option<real>, softLogout: bool)
    | TimedOut
    | Aborted
    | NetworkFailure
    | OtherError
  {
    predicate IsRateLimit() {
      ApiError? && (status == 429 || errcode == Some("M_LIMIT_EXCEEDED"))
    }

    predicate IsAuthFailure() {
      ApiError? && (status == 401 || errcode == Some("M_UNKNOWN_TOKEN") || errcode == Some("M_MISSING_TOKEN"))
    }
  }

  datatype Outcome =
    | Success(value: string)
    | Raised(failure: Failure)
    | AuthenticationError(softLogout: bool)
    | RateLimitedError(retryAfterMs: real)

  /** One attempt as the world plays it: what came back, whether the server applied the request,
      whether the caller had aborted by then or aborts during the sleep that follows, the token a
      refresh would give (none when empty) and the random number for the jitter. */
  datatype Reply = Reply(result: Result, applied: bool, aborted: bool, abortedAsleep: bool, freshToken: string, random: Unit)

  datatype Result = Answered(value: string) | Failed(failure: Failure)

  type World = (nat, string) -> Reply

  datatype Options = Options(idempotent: bool, budget: int, retryBaseMs: real, maxRetryDelayMs: real)

  const MAX_HONOURED_RETRY_AFTER_MS := 90000.0

  function Min(a: real, b: real): real { if a < b then a else b }
  function Max(a: real, b: real): real { if a < b then b else a }

  function Clamp(value: real, min: real, max: real): (r: real)
    ensures min <= max ==> min <= r <= max
    ensures min <= value <= max ==> r == value
    ensures r <= max
  {
    Min(max, Max(min, value))
  }

  function Doubled(base: real, n: nat): real {
    if n == 0 then base else 2.0 * Doubled(base, n - 1)
  }

  /** A wait stretched at random, to less than twice its length. */
  function Jitter(base: real, random: Unit): (ms: real)
    ensures 0.0 < base ==> base <= ms < 2.0 * base && random == (ms - base) / base
    ensures base == 0.0 ==> ms == 0.0
  {
    base + random * base
  }

  function Backoff(o: Options, attempt: nat, random: Unit): real
    requires attempt > 0
  {
    Clamp(Jitter(Doubled(o.retryBaseMs, attempt - 1), random), o.retryBaseMs, o.maxRetryDelayMs)
  }

  /** The delay before the next attempt, or none when the failure must not be retried. */
  function RetryDelayFor(o: Options, f: Failure, attempt: nat, random: Unit): (delay: Option<real>)
    requires attempt > 0
    ensures delay.Some? ==> f.IsRateLimit() || o.idempotent
    ensures delay.Some? ==> delay.value <= Max(MAX_HONOURED_RETRY_AFTER_MS, o.maxRetryDelayMs)
    ensures f.IsRateLimit() && f.retryAfterMs.Some? ==>
              (delay.Some? <==> f.retryAfterMs.value <= MAX_HONOURED_RETRY_AFTER_MS)
              && (delay.Some? ==> f.retryAfterMs.value <= delay.value)
  {
    match f
    case ApiError(status, _, retryAfterMs, _) =>
      if f.IsRateLimit() then
        var hinted := if retryAfterMs.Some? then retryAfterMs.value else Doubled(o.retryBaseMs, attempt - 1);
        if hinted > MAX_HONOURED_RETRY_AFTER_MS then None
        else Some(Clamp(hinted, 100.0, MAX_HONOURED_RETRY_AFTER_MS))
      else if 500 <= status < 600 then
        if o.idempotent then Some(Backoff(o, attempt, random)) else None
      else None
    case TimedOut => if o.idempotent then Some(Backoff(o, attempt, random)) else None
    case NetworkFailure => if o.idempotent then Some(Backoff(o, attempt, random)) else None
    case Aborted => None
    case OtherError => None
  }

  datatype Decision = Stop(outcome: Outcome) | Refresh(token: string) | Wait(ms: real)

  /** What one failed attempt leads to: the checks in the source's order. */
  function Decide(o: Options, f: Failure, reply: Reply, attempt: nat, refreshed: bool): Decision
    requires attempt > 0
  {
    if reply.aborted then Stop(Raised(f))
    else if f.IsAuthFailure() then
      if !refreshed && reply.freshToken != "" then Refresh(reply.freshToken)
      else Stop(AuthenticationError(f.softLogout))
    else
      var delay := RetryDelayFor(o, f, attempt, reply.random);
      if delay.None? || attempt > o.budget then
        Stop(if f.IsRateLimit() then RateLimitedError(if f.retryAfterMs.Some? then f.retryAfterMs.value else 0.0)
             else Raised(f))
      else Wait(delay.value)
  }

  /** A whole call: the replies its attempts got, the refreshes, the sleeps, how it ended, and the token left. */
  datatype Call = Call(replies: seq<Reply>, refreshes: nat, sleeps: seq<real>, outcome: Outcome, token: string)

  /** What remains of a call whose next attempt is number `attempt`. */
  function Remaining(w: World, o: Options, attempt: nat, refreshed: bool, token: string): Call
    requires attempt > 0
    decreases if refreshed then 0 else 1, Excess(o.budget + 1 - attempt)
  {
    var reply := w(attempt, token);
    match reply.result
    case Answered(value) => Call([reply], 0, [], Success(value), token)
    case Failed(f) =>
      match Decide(o, f, reply, attempt, refreshed)
      case Stop(outcome) => Call([reply], 0, [], outcome, token)
      case Refresh(renewed) =>
        var rest := Remaining(w, o, attempt + 1, true, renewed);
        rest.(replies := [reply] + rest.replies, refreshes := 1 + rest.refreshes)
      case Wait(ms) =>
        if reply.abortedAsleep then Call([reply], 0, [ms], Raised(f), token)
        else
          var rest := Remaining(w, o, attempt + 1, refreshed, token);
          rest.(replies := [reply] + rest.replies, sleeps := [ms] + rest.sleeps)
  }

  function Excess(n: int): nat { if n < 0 then 0 else n }

  /** A call that begins as recorded in `done` and ends as `rest` does. */
  ghost function Then(replies: seq<Reply>, refreshes: nat, sleeps: seq<real>, rest: Call): Call {
    rest.(replies := replies + rest.replies, refreshes := refreshes + rest.refreshes, sleeps := sleeps + rest.sleeps)
  }

  class MatrixHttp {
    var accessToken: string
    const retryBaseMs: real
    const maxRetryDelayMs: real

    constructor (accessToken: string, retryBaseMs: real, maxRetryDelayMs: real)
      ensures this.accessToken == accessToken
      ensures this.retryBaseMs == retryBaseMs && this.maxRetryDelayMs == maxRetryDelayMs
    {
      this.accessToken, this.retryBaseMs, this.maxRetryDelayMs := accessToken, retryBaseMs, maxRetryDelayMs;
    }

    /** The loop; `call` is the record of what it did. */
    method Request(w: World, idempotent: bool, budget: int) returns (outcome: Outcome, ghost call: Call)
      modifies this
      ensures call == Remaining(w, Options(idempotent, budget, retryBaseMs, maxRetryDelayMs), 1, false, old(accessToken))
      ensures outcome == call.outcome && accessToken == call.token
    {
      hide Decide;
      var o := Options(idempotent, budget, retryBaseMs, maxRetryDelayMs);
      call := Remaining(w, o, 1, false, accessToken);
      ghost var replies: seq<Reply>, refreshes: nat, sleeps: seq<real> := [], 0, [];
      var attempt, refreshed := 0, false;
      while true
        invariant attempt >= 0
        invariant call == Then(replies, refreshes, sleeps, Remaining(w, o, attempt + 1, refreshed, accessToken))
        decreases if refreshed then 0 else 1, Excess(o.budget - attempt)
      {
        attempt := attempt + 1;
        var reply := w(attempt, accessToken);
        if reply.result.Answered? {
          return Success(reply.result.value), call;
        }
        var f := reply.result.failure;
        Continues(w, o, attempt, refreshed, accessToken, replies, refreshes, sleeps);
        WithinBudget(o, reply, attempt, refreshed);
        match Decide(o, f, reply, attempt, refreshed) {
          case Stop(error) =>
            return error, call;
          case Refresh(renewed) =>
            replies, refreshes := replies + [reply], refreshes + 1;
            accessToken, refreshed := renewed, true;
          case Wait(ms) =>
            if reply.abortedAsleep {
              return Raised(f), call;
            }
            replies, sleeps := replies + [reply], sleeps + [ms];
        }
      }
    }
  }

  /** One failed attempt moves its reply from what remains to what is done. */
  lemma Continues(w: World, o: Options, attempt: nat, refreshed: bool, token: string,
                  replies: seq<Reply>, refreshes: nat, sleeps: seq<real>)
    requires attempt > 0 && w(attempt, token).result.Failed?
    ensures var reply := w(attempt, token);
            var f := reply.result.failure;
            var call := Then(replies, refreshes, sleeps, Remaining(w, o, attempt, refreshed, token));
            match Decide(o, f, reply, attempt, refreshed)
            case Stop(outcome) => call.outcome == outcome && call.token == token
            case Refresh(renewed) =>
              call == Then(replies + [reply], refreshes + 1, sleeps, Remaining(w, o, attempt + 1, true, renewed))
            case Wait(ms) =>
              if reply.abortedAsleep then call.outcome == Raised(f) && call.token == token
              else call == Then(replies + [reply], refreshes, sleeps + [ms], Remaining(w, o, attempt + 1, refreshed, token))
  {
    var reply := w(attempt, token);
    match Decide(o, reply.result.failure, reply, attempt, refreshed)
    case Stop(_) =>
    case Refresh(renewed) => Spliced(replies, sleeps, [reply], [], Remaining(w, o, attempt + 1, true, renewed));
    case Wait(ms) =>
      if !reply.abortedAsleep {
        Spliced(replies, sleeps, [reply], [ms], Remaining(w, o, attempt + 1, refreshed, token));
      }
  }

  lemma Spliced(replies: seq<Reply>, sleeps: seq<real>, r: seq<Reply>, s: seq<real>, rest: Call)
    ensures replies + (r + rest.replies) == (replies + r) + rest.replies
    ensures sleeps + (s + rest.sleeps) == (sleeps + s) + rest.sleeps
    ensures sleeps + rest.sleeps == (sleeps + []) + rest.sleeps
  {
  }

  // ------------------------------------------------------------ theorems

  function Total(sleeps: seq<real>): real
    decreases |sleeps|
  {
    if sleeps == [] then 0.0 else Max(0.0, sleeps[0]) + Total(sleeps[1..])
  }

  function LongestDelay(o: Options): real {
    Max(MAX_HONOURED_RETRY_AFTER_MS, o.maxRetryDelayMs)
  }

  /** From any point of a call: a refresh at most, and a sleep only while the budget lasts. */
  lemma {:induction false} Counts(w: World, o: Options, attempt: nat, refreshed: bool, token: string)
    requires attempt > 0
    ensures var c := Remaining(w, o, attempt, refreshed, token);
            && c.refreshes <= (if refreshed then 0 else 1)
            && |c.sleeps| <= Excess(o.budget + 1 - attempt)
            && |c.replies| <= 1 + c.refreshes + |c.sleeps|
            && (forall i :: 0 <= i < |c.sleeps| ==> c.sleeps[i] <= LongestDelay(o))
    decreases if refreshed then 0 else 1, Excess(o.budget + 1 - attempt)
  {
    var reply := w(attempt, token);
    if reply.result.Failed? {
      match Decide(o, reply.result.failure, reply, attempt, refreshed)
      case Stop(_) =>
      case Refresh(renewed) => Counts(w, o, attempt + 1, true, renewed);
      case Wait(ms) =>
        if !reply.abortedAsleep {
          Counts(w, o, attempt + 1, refreshed, token);
        }
    }
  }

  lemma {:induction false} TotalBound(sleeps: seq<real>, longest: real, n: nat)
    requires 0.0 <= longest && |sleeps| <= n
    requires forall i :: 0 <= i < |sleeps| ==> sleeps[i] <= longest
    ensures Total(sleeps) <= n as real * longest
    decreases n
  {
    if sleeps != [] {
      TotalBound(sleeps[1..], longest, n - 1);
      assert n as real * longest == (n - 1) as real * longest + longest;
    } else {
      NotNegative(n as real, longest);
    }
  }

  lemma NotNegative(a: real, b: real)
    requires 0.0 <= a && 0.0 <= b
    ensures 0.0 <= a * b
  {
  }

  /** A call makes at most `budget` + 2 attempts with at most one refresh, and sleeps at most `budget`
      times the longest single delay. */
  lemma CallIsBounded(w: World, o: Options, token: string)
    ensures var c := Remaining(w, o, 1, false, token);
            && |c.replies| <= Excess(o.budget) + 2
            && c.refreshes <= 1
            && |c.sleeps| <= Excess(o.budget)
            && Total(c.sleeps) <= Excess(o.budget) as real * LongestDelay(o)
  {
    Counts(w, o, 1, false, token);
    SleepIsBounded(Remaining(w, o, 1, false, token), o);
  }

  lemma SleepIsBounded(c: Call, o: Options)
    requires |c.sleeps| <= Excess(o.budget) && forall i :: 0 <= i < |c.sleeps| ==> c.sleeps[i] <= LongestDelay(o)
    ensures Total(c.sleeps) <= Excess(o.budget) as real * LongestDelay(o)
  {
    TotalBound(c.sleeps, LongestDelay(o), Excess(o.budget));
  }

  // ------------------------------------------------------------ what a call does, reply by reply

  /** The two kinds of failure by which a server turns a request away, by status or by error code. */
  predicate RateLimited(f: Failure) {
    f.ApiError? && (f.status == 429 || f.errcode == Some("M_LIMIT_EXCEEDED"))
  }

  predicate Unauthorized(f: Failure) {
    f.ApiError? && (f.status == 401 || f.errcode in {Some("M_UNKNOWN_TOKEN"), Some("M_MISSING_TOKEN")})
  }

  function PowerOfTwo(n: nat): nat {
    if n == 0 then 1 else PowerOfTwo(n - 1) * 2
  }

  /** The base doubles at every attempt. */
  lemma {:induction false} DoubledIsPower(base: real, n: nat)
    ensures Doubled(base, n) == PowerOfTwo(n) as real * base
  {
    if n > 0 {
      DoubledIsPower(base, n - 1);
      assert PowerOfTwo(n) as real == 2.0 * PowerOfTwo(n - 1) as real;
    }
  }

  /** The wait that a rate limit asks for: its hint, or the base doubled at every attempt. */
  function Asked(o: Options, f: Failure, n: nat): real
    requires f.ApiError? && n > 0
  {
    if f.retryAfterMs.Some? then f.retryAfterMs.value else Doubled(o.retryBaseMs, n - 1)
  }

  /** May the request be made again after its n-th attempt failed so? After a rate limit whose wait is
      bearable always, since it was not applied; after a server error, a timeout or a network failure only
      when it is idempotent. */
  predicate Replayable(o: Options, f: Failure, n: nat)
    requires n > 0
  {
    if RateLimited(f) then Asked(o, f, n) <= MAX_HONOURED_RETRY_AFTER_MS
    else o.idempotent && (f.TimedOut? || f.NetworkFailure? || (f.ApiError? && 500 <= f.status < 600))
  }

  ghost predicate AuthFailed(reply: Reply) {
    reply.result.Failed? && Unauthorized(reply.result.failure)
  }

  /** Does a call go on after its n-th reply? */
  ghost predicate GoesOn(o: Options, reply: Reply, n: nat, refreshed: bool)
    requires n > 0
  {
    && reply.result.Failed? && !reply.aborted
    && if AuthFailed(reply) then !refreshed && reply.freshToken != ""
       else Replayable(o, reply.result.failure, n) && n <= o.budget && !reply.abortedAsleep
  }

  ghost predicate SomeAuthFailed(replies: seq<Reply>) {
    exists i :: 0 <= i < |replies| && AuthFailed(replies[i])
  }

  /** The token after these replies: each authentication failure among them brought a fresh one. */
  ghost function TokenAfter(token: string, replies: seq<Reply>): string
    decreases |replies|
  {
    if replies == [] then token
    else TokenAfter(if AuthFailed(replies[0]) then replies[0].freshToken else token, replies[1..])
  }

  /** The i-th reply is what the world answers to that attempt with the token of the time, and the call goes
      on after every reply but the last. */
  ghost predicate ReplyAt(w: World, o: Options, first: nat, refreshed: bool, token: string, replies: seq<Reply>, i: nat)
    requires first > 0 && i < |replies|
  {
    && replies[i] == w(first + i, TokenAfter(token, replies[..i]))
    && (GoesOn(o, replies[i], first + i, refreshed || SomeAuthFailed(replies[..i])) <==> i < |replies| - 1)
  }

  /** What a call reports after its last reply. */
  ghost function Verdict(o: Options, last: Reply, n: nat): Outcome
    requires n > 0
  {
    match last.result
    case Answered(value) => Success(value)
    case Failed(f) =>
      if last.aborted then Raised(f)
      else if Unauthorized(f) then AuthenticationError(f.softLogout)
      else if RateLimited(f) && !(Replayable(o, f, n) && n <= o.budget) then
        RateLimitedError(if f.retryAfterMs.Some? then f.retryAfterMs.value else 0.0)
      else Raised(f)
  }

  /** The sleep after the n-th attempt: what a rate limit asks for, a tenth of a second at least; otherwise
      the base doubled at every attempt and stretched at random, the base at least and the maximum at most. */
  ghost predicate SleepIs(o: Options, reply: Reply, n: nat, ms: real)
    requires n > 0 && reply.result.Failed?
  {
    var f := reply.result.failure;
    if RateLimited(f) then ms == Max(100.0, Asked(o, f, n))
    else ms == Min(o.maxRetryDelayMs, Max(o.retryBaseMs, Jitter(Doubled(o.retryBaseMs, n - 1), reply.random)))
  }

  /** Does the call sleep after its n-th attempt? */
  ghost predicate Sleeps(o: Options, reply: Reply, n: nat)
    requires n > 0
  {
    && reply.result.Failed? && !reply.aborted && !AuthFailed(reply)
    && Replayable(o, reply.result.failure, n) && n <= o.budget
  }

  /** One sleep after each attempt that calls for it, in order. */
  ghost predicate SleepsAre(o: Options, first: nat, replies: seq<Reply>, sleeps: seq<real>)
    requires first > 0
    decreases |replies|
  {
    if replies == [] then sleeps == []
    else if Sleeps(o, replies[0], first) then
      sleeps != [] && SleepIs(o, replies[0], first, sleeps[0]) && SleepsAre(o, first + 1, replies[1..], sleeps[1..])
    else SleepsAre(o, first + 1, replies[1..], sleeps)
  }

  /** A delay is given exactly when the failure may be replayed, and it is the sleep named. */
  lemma DelayIs(o: Options, reply: Reply, n: nat)
    requires n > 0 && reply.result.Failed? && !AuthFailed(reply)
    ensures var f := reply.result.failure; var delay := RetryDelayFor(o, f, n, reply.random);
            && (delay.Some? <==> Replayable(o, f, n))
            && (delay.Some? ==> SleepIs(o, reply, n, delay.value))
  {
  }

  /** What the loop makes of one failure, in these terms. */
  lemma DecideIs(o: Options, reply: Reply, n: nat, refreshed: bool)
    requires n > 0 && reply.result.Failed?
    ensures var f := reply.result.failure;
            match Decide(o, f, reply, n, refreshed)
            case Stop(outcome) => outcome == Verdict(o, reply, n) && !GoesOn(o, reply, n, refreshed) && !Sleeps(o, reply, n)
            case Refresh(token) =>
              GoesOn(o, reply, n, refreshed) && AuthFailed(reply) && token == reply.freshToken && !Sleeps(o, reply, n)
            case Wait(ms) =>
              && Sleeps(o, reply, n) && SleepIs(o, reply, n, ms) && !AuthFailed(reply)
              && (GoesOn(o, reply, n, refreshed) <==> !reply.abortedAsleep)
              && (reply.abortedAsleep ==> Verdict(o, reply, n) == Raised(f))
  {
    hide RetryDelayFor;
    hide Replayable;
    hide SleepIs;
    if !AuthFailed(reply) {
      DelayIs(o, reply, n);
    }
  }

  /** A call accounts for what it did from its `first` attempt on: it goes on after every reply but the
      last, each attempt is made with the token of the time, the outcome is that of the last reply, and the
      sleeps are those named. */
  ghost predicate Accounts(w: World, o: Options, first: nat, refreshed: bool, token: string, c: Call)
    requires first > 0
  {
    && c.replies != []
    && (forall i :: 0 <= i < |c.replies| ==> ReplyAt(w, o, first, refreshed, token, c.replies, i))
    && c.outcome == Verdict(o, c.replies[|c.replies| - 1], first + |c.replies| - 1)
    && SleepsAre(o, first, c.replies, c.sleeps)
    && c.token == TokenAfter(token, c.replies[..|c.replies| - 1])
    && c.refreshes == if SomeAuthFailed(c.replies[..|c.replies| - 1]) then 1 else 0
  }

  lemma LastReply(w: World, o: Options, first: nat, refreshed: bool, token: string, sleeps: seq<real>, outcome: Outcome)
    requires first > 0
    requires var reply := w(first, token);
             && !GoesOn(o, reply, first, refreshed) && outcome == Verdict(o, reply, first)
             && if Sleeps(o, reply, first) then |sleeps| == 1 && SleepIs(o, reply, first, sleeps[0]) else sleeps == []
    ensures Accounts(w, o, first, refreshed, token, Call([w(first, token)], 0, sleeps, outcome, token))
  {
    hide GoesOn;
    hide Sleeps;
    hide SleepIs;
    hide Verdict;
    var replies := [w(first, token)];
    assert replies[..0] == [] && replies[1..] == [];
    assert |sleeps| == 1 ==> sleeps[1..] == [];
    assert SleepsAre(o, first + 1, [], []);
  }

  lemma AuthInFront(reply: Reply, rest: seq<Reply>)
    ensures SomeAuthFailed([reply] + rest) <==> AuthFailed(reply) || SomeAuthFailed(rest)
  {
    hide AuthFailed;
    var all := [reply] + rest;
    assert all[0] == reply && forall i :: 0 <= i < |rest| ==> all[i + 1] == rest[i];
    if i :| 0 <= i < |all| && AuthFailed(all[i]) {
      assert i == 0 || rest[i - 1] == all[i];
    }
  }

  lemma ReplyLater(w: World, o: Options, first: nat, refreshed: bool, token: string, reply: Reply, rest: seq<Reply>, i: nat)
    requires first > 0 && i < |rest|
    requires ReplyAt(w, o, first + 1, refreshed || AuthFailed(reply),
                     if AuthFailed(reply) then reply.freshToken else token, rest, i)
    ensures ReplyAt(w, o, first, refreshed, token, [reply] + rest, i + 1)
  {
    hide GoesOn;
    hide AuthFailed;
    var all := [reply] + rest;
    assert all[..i + 1] == [reply] + rest[..i] && all[i + 1] == rest[i] && all[..i + 1][1..] == rest[..i];
    AuthInFront(reply, rest[..i]);
  }

  lemma OneMore(w: World, o: Options, first: nat, refreshed: bool, token: string, sleeps: seq<real>, rest: Call)
    requires first > 0
    requires var reply := w(first, token);
             && GoesOn(o, reply, first, refreshed)
             && Accounts(w, o, first + 1, refreshed || AuthFailed(reply),
                         if AuthFailed(reply) then reply.freshToken else token, rest)
             && (AuthFailed(reply) ==> rest.refreshes == 0)
             && if Sleeps(o, reply, first) then |sleeps| == 1 && SleepIs(o, reply, first, sleeps[0]) else sleeps == []
    ensures var reply := w(first, token);
            Accounts(w, o, first, refreshed, token,
                     Call([reply] + rest.replies, (if AuthFailed(reply) then 1 else 0) + rest.refreshes,
                          sleeps + rest.sleeps, rest.outcome, rest.token))
  {
    hide GoesOn;
    hide AuthFailed;
    hide Sleeps;
    hide SleepIs;
    hide Verdict;
    var reply := w(first, token);
    var all, k := [reply] + rest.replies, |rest.replies|;
    forall i | 0 <= i < |all| ensures ReplyAt(w, o, first, refreshed, token, all, i) {
      if i > 0 {
        ReplyLater(w, o, first, refreshed, token, reply, rest.replies, i - 1);
      } else {
        assert all[..0] == [];
      }
    }
    hide ReplyAt;
    assert all[..k] == [reply] + rest.replies[..k - 1] && all[..k][1..] == rest.replies[..k - 1];
    AuthInFront(reply, rest.replies[..k - 1]);
    SleepsMore(o, first, reply, rest.replies, sleeps, rest.sleeps);
  }

  lemma SleepsMore(o: Options, first: nat, reply: Reply, rest: seq<Reply>, sleeps: seq<real>, more: seq<real>)
    requires first > 0 && SleepsAre(o, first + 1, rest, more)
    requires if Sleeps(o, reply, first) then |sleeps| == 1 && SleepIs(o, reply, first, sleeps[0]) else sleeps == []
    ensures SleepsAre(o, first, [reply] + rest, sleeps + more)
  {
    hide Sleeps;
    hide SleepIs;
    assert ([reply] + rest)[1..] == rest;
    if sleeps == [] {
      assert sleeps + more == more;
    } else {
      assert (sleeps + more)[1..] == more;
    }
  }

  /** A call makes its attempts exactly as long as it must, with the waits it must. */
  lemma {:induction false} GoesOnExactly(w: World, o: Options, attempt: nat, refreshed: bool, token: string)
    requires attempt > 0
    ensures Accounts(w, o, attempt, refreshed, token, Remaining(w, o, attempt, refreshed, token))
    decreases if refreshed then 0 else 1, Excess(o.budget + 1 - attempt)
  {
    hide Accounts;
    hide GoesOn;
    hide Sleeps;
    hide SleepIs;
    hide Decide;
    var reply := w(attempt, token);
    Counts(w, o, attempt + 1, true, reply.freshToken);
    if reply.result.Answered? {
      AnswerEnds(o, reply, attempt, refreshed);
      LastReply(w, o, attempt, refreshed, token, [], Success(reply.result.value));
    } else {
      DecideIs(o, reply, attempt, refreshed);
      WithinBudget(o, reply, attempt, refreshed);
      match Decide(o, reply.result.failure, reply, attempt, refreshed)
      case Stop(outcome) => LastReply(w, o, attempt, refreshed, token, [], outcome);
      case Refresh(renewed) =>
        GoesOnExactly(w, o, attempt + 1, true, renewed);
        OneMore(w, o, attempt, refreshed, token, [], Remaining(w, o, attempt + 1, true, renewed));
        assert [] + Remaining(w, o, attempt + 1, true, renewed).sleeps == Remaining(w, o, attempt + 1, true, renewed).sleeps;
      case Wait(ms) =>
        if reply.abortedAsleep {
          LastReply(w, o, attempt, refreshed, token, [ms], Raised(reply.result.failure));
        } else {
          GoesOnExactly(w, o, attempt + 1, refreshed, token);
          OneMore(w, o, attempt, refreshed, token, [ms], Remaining(w, o, attempt + 1, refreshed, token));
        }
    }
  }

  lemma AnswerEnds(o: Options, reply: Reply, n: nat, refreshed: bool)
    requires n > 0 && reply.result.Answered?
    ensures !GoesOn(o, reply, n, refreshed) && !Sleeps(o, reply, n) && Verdict(o, reply, n) == Success(reply.result.value)
  {
  }

  lemma WithinBudget(o: Options, reply: Reply, n: nat, refreshed: bool)
    requires n > 0 && reply.result.Failed?
    ensures match Decide(o, reply.result.failure, reply, n, refreshed)
            case Stop(_) => true
            case Refresh(_) => !refreshed
            case Wait(_) => n <= o.budget
  {
  }

  /** A call succeeds when a success comes within the budget, after failures that may be replayed. */
  lemma {:induction false} SucceedsInTime(w: World, o: Options, attempt: nat, refreshed: bool, token: string, m: nat)
    requires 0 < attempt <= m <= Excess(o.budget) + 1 && w(m, token).result.Answered?
    requires forall n :: attempt <= n < m ==>
               var reply := w(n, token);
               && reply.result.Failed? && !AuthFailed(reply) && Replayable(o, reply.result.failure, n)
               && !reply.aborted && !reply.abortedAsleep
    ensures var c := Remaining(w, o, attempt, refreshed, token);
            c.outcome == Success(w(m, token).result.value) && |c.replies| == m - attempt + 1 && c.token == token
    decreases m - attempt
  {
    if attempt < m {
      var reply := w(attempt, token);
      DecideIs(o, reply, attempt, refreshed);
      SucceedsInTime(w, o, attempt + 1, refreshed, token, m);
    }
  }

  /** The server does not apply what it turns away. */
  ghost predicate Honest(w: World) {
    forall k, token :: w(k, token).result.Failed?
      && (w(k, token).result.failure.IsRateLimit() || w(k, token).result.failure.IsAuthFailure())
      ==> !w(k, token).applied
  }

  function Applications(replies: seq<Reply>): nat
    decreases |replies|
  {
    if replies == [] then 0 else (if replies[0].applied then 1 else 0) + Applications(replies[1..])
  }

  /** At most one reply is of an applied attempt, and only the last can be. */
  ghost predicate LastOnly(replies: seq<Reply>) {
    Applications(replies) <= 1 && forall i :: 0 <= i < |replies| - 1 ==> !replies[i].applied
  }

  lemma NotApplied(reply: Reply, replies: seq<Reply>)
    requires !reply.applied && LastOnly(replies)
    ensures LastOnly([reply] + replies)
  {
    assert ([reply] + replies)[1..] == replies;
  }

  /** A request that is not idempotent is applied at most once, and only by its last attempt. */
  lemma {:induction false} AppliedAtMostOnce(w: World, o: Options, attempt: nat, refreshed: bool, token: string)
    requires attempt > 0 && !o.idempotent && Honest(w)
    ensures LastOnly(Remaining(w, o, attempt, refreshed, token).replies)
    decreases if refreshed then 0 else 1, Excess(o.budget + 1 - attempt)
  {
    var reply := w(attempt, token);
    assert Applications([reply]) <= 1;
    if reply.result.Failed? {
      match Decide(o, reply.result.failure, reply, attempt, refreshed)
      case Stop(_) =>
      case Refresh(renewed) =>
        AppliedAtMostOnce(w, o, attempt + 1, true, renewed);
        NotApplied(reply, Remaining(w, o, attempt + 1, true, renewed).replies);
      case Wait(ms) =>
        if !reply.abortedAsleep {
          AppliedAtMostOnce(w, o, attempt + 1, refreshed, token);
          NotApplied(reply, Remaining(w, o, attempt + 1, refreshed, token).replies);
        }
    }
  }
}
