/** The lock made of a promise chain: tasks run one at a time, in the order of their `run` calls,
    whether or not they fail, and the caller of a task goes on before the next task starts.

    The model has the runtime's own rules: a promise keeps its reactions in the order in which they were
    registered, settling it moves them behind the jobs already queued, and jobs run one by one. */
module AsyncLock {

  /** A reaction of the lock or its callers, by the number of the task; or a job of other code. */
  datatype Job = Start(task: nat) | Hush(task: nat) | Resume(task: nat) | Other

  datatype Promise = Promise(settled: bool, reactions: seq<Job>)

  datatype Status = Waiting | Running | Done(ok: bool)

  /** A task; whether its caller awaits it; and whether that caller has gone on. */
  datatype Task = Task(status: Status, awaited: bool, resumed: bool)

  datatype Step = Run(awaited: bool) | Finish(task: nat, ok: bool) | Tick | Post

  /** The result of the n-th `run` is promise 2n + 1, the promise that hushes its outcome 2n + 2; promise 0
      is the one the lock starts with. */
  function ResultOf(task: nat): nat { 2 * task + 1 }

  function HushOf(task: nat): nat { 2 * task + 2 }

  datatype Runtime = Runtime(promises: seq<Promise>, jobs: seq<Job>, chain: nat, tasks: seq<Task>) {

    /** `then`: a reaction is kept by a pending promise and queued at once for a settled one. */
    function Then(p: nat, job: Job): Runtime
      requires p < |promises|
    {
      if promises[p].settled then this.(jobs := jobs + [job])
      else this.(promises := promises[p := promises[p].(reactions := promises[p].reactions + [job])])
    }

    function Settle(p: nat): Runtime
      requires p < |promises|
    {
      this.(promises := promises[p := Promise(true, [])], jobs := jobs + promises[p].reactions)
    }

    /** `run`, and the caller's `await` on its result. */
    function Enter(awaited: bool): Runtime
      requires chain < |promises|
    {
      var n, result := |tasks|, |promises|;
      var r := this.(promises := promises + [Promise(false, []), Promise(false, [])], chain := result + 1,
                     tasks := tasks + [Task(Waiting, awaited, false)])
                   .Then(chain, Start(n)).Then(result, Hush(n));
      if awaited then r.Then(result, Resume(n)) else r
    }

    predicate Can(s: Step) {
      match s
      case Run(_) => chain < |promises|
      case Finish(k, _) => k < |tasks| && tasks[k].status.Running? && ResultOf(k) < |promises|
      case Tick =>
        jobs != [] &&
        (match jobs[0]
         case Other => true
         case Hush(k) => HushOf(k) < |promises|
         case _ => jobs[0].task < |tasks|)
      case Post => true
    }

    function After(s: Step): Runtime
      requires Can(s)
    {
      match s
      case Run(awaited) => Enter(awaited)
      case Finish(k, ok) => this.(tasks := tasks[k := tasks[k].(status := Done(ok))]).Settle(ResultOf(k))
      case Post => this.(jobs := jobs + [Other])
      case Tick =>
        var rest := this.(jobs := jobs[1..]);
        match jobs[0]
        case Start(k) => rest.(tasks := tasks[k := tasks[k].(status := Running)])
        case Hush(k) => rest.Settle(HushOf(k))
        case Resume(k) => rest.(tasks := tasks[k := tasks[k].(resumed := true)])
        case Other => rest
    }
  }

  const INITIAL := Runtime([Promise(true, [])], [], 0, [])

  predicate Possible(r: Runtime, steps: seq<Step>)
    decreases |steps|
  {
    steps == [] || (r.Can(steps[0]) && Possible(r.After(steps[0]), steps[1..]))
  }

  function Reached(r: Runtime, steps: seq<Step>): Runtime
    requires Possible(r, steps)
    decreases |steps|
  {
    if steps == [] then r else Reached(r.After(steps[0]), steps[1..])
  }

  // ------------------------------------------------------------------ the invariant

  /** The jobs of the lock and its callers, in their order. */
  function Ours(jobs: seq<Job>): seq<Job> {
    if jobs == [] then [] else (if jobs[0].Other? then [] else [jobs[0]]) + Ours(jobs[1..])
  }

  /** The reaction of an awaiting caller. */
  function Caller(t: Task, k: nat): seq<Job> {
    if t.awaited then [Resume(k)] else []
  }

  /** A caller that has been told but has not gone on. */
  function Told(tasks: seq<Task>, k: int): seq<Job>
    requires k < |tasks|
  {
    if k >= 0 && tasks[k].awaited && !tasks[k].resumed then [Resume(k)] else []
  }

  /** The jobs queued when the first c tasks are over, hushed and all. */
  function Queued(tasks: seq<Task>, c: nat): seq<Job>
    requires c <= |tasks|
  {
    if c == |tasks| then Told(tasks, c - 1)
    else match tasks[c].status
         case Waiting => Told(tasks, c - 1) + [Start(c)]
         case Running => []
         case Done(_) => [Hush(c)] + Caller(tasks[c], c)
  }

  ghost predicate TaskOk(tasks: seq<Task>, c: nat, k: nat)
    requires k < |tasks|
  {
    && (k < c ==> tasks[k].status.Done?)
    && (k > c ==> tasks[k].status.Waiting?)
    && (tasks[k].resumed ==> k < c && tasks[k].awaited)
    && (k < c && tasks[k].awaited && !tasks[k].resumed ==> k == c - 1 && (c == |tasks| || tasks[c].status.Waiting?))
  }

  /** A promise that is pending has its reactions in the order of registration. */
  ghost predicate PromiseOk(r: Runtime, c: nat, k: nat)
    requires k < |r.tasks| && |r.promises| == 2 * |r.tasks| + 1
  {
    && r.promises[ResultOf(k)] == (if r.tasks[k].status.Done? then Promise(true, [])
                                   else Promise(false, [Hush(k)] + Caller(r.tasks[k], k)))
    && r.promises[HushOf(k)] == (if k < c then Promise(true, [])
                                 else Promise(false, if k + 1 < |r.tasks| then [Start(k + 1)] else []))
  }

  ghost predicate Inv(r: Runtime, c: nat) {
    && c <= |r.tasks| && |r.promises| == 2 * |r.tasks| + 1 && r.chain == |r.promises| - 1
    && r.promises[0] == Promise(true, [])
    && (forall k :: 0 <= k < |r.tasks| ==> TaskOk(r.tasks, c, k) && PromiseOk(r, c, k))
    && Ours(r.jobs) == Queued(r.tasks, c)
  }

  lemma {:induction false} OursJoin(a: seq<Job>, b: seq<Job>)
    ensures Ours(a + b) == Ours(a) + Ours(b)
    decreases |a|
  {
    if a == [] {
      assert a + b == b;
    } else {
      assert (a + b)[1..] == a[1..] + b;
      OursJoin(a[1..], b);
    }
  }

  lemma {:induction false} AllOurs(jobs: seq<Job>)
    requires forall job :: job in jobs ==> !job.Other?
    ensures Ours(jobs) == jobs
    decreases |jobs|
  {
    if jobs != [] {
      AllOurs(jobs[1..]);
    }
  }

  /** The promises after `run`: the start is kept by a chain that has not settled. */
  ghost function Entered(r: Runtime, awaited: bool): seq<Promise>
    requires r.chain < |r.promises|
  {
    var n, last := |r.tasks|, r.promises[r.chain];
    (if last.settled then r.promises else r.promises[r.chain := Promise(false, last.reactions + [Start(n)])])
    + [Promise(false, if awaited then [Hush(n), Resume(n)] else [Hush(n)]), Promise(false, [])]
  }

  lemma EnterIs(r: Runtime, awaited: bool)
    requires r.chain < |r.promises|
    ensures r.Enter(awaited).promises == Entered(r, awaited) && r.Enter(awaited).chain == |r.promises| + 1
    ensures r.Enter(awaited).jobs == if r.promises[r.chain].settled then r.jobs + [Start(|r.tasks|)] else r.jobs
    ensures r.Enter(awaited).tasks == r.tasks + [Task(Waiting, awaited, false)]
  {
    var n, result := |r.tasks|, |r.promises|;
    var made := r.(promises := r.promises + [Promise(false, []), Promise(false, [])], chain := result + 1,
                   tasks := r.tasks + [Task(Waiting, awaited, false)]);
    var begun := made.Then(r.chain, Start(n));
    var hushed := begun.Then(result, Hush(n));
    var last := r.promises[r.chain];
    var base := if last.settled then r.promises else r.promises[r.chain := Promise(false, last.reactions + [Start(n)])];
    assert begun.promises == base + [Promise(false, []), Promise(false, [])];
    assert [] + [Hush(n)] == [Hush(n)] && [Hush(n)] + [Resume(n)] == [Hush(n), Resume(n)];
    assert hushed.promises == base + [Promise(false, [Hush(n)]), Promise(false, [])];
    assert awaited ==> hushed.Then(result, Resume(n)).promises
                       == base + [Promise(false, [Hush(n), Resume(n)]), Promise(false, [])];
  }

  lemma EnteredOk(r: Runtime, c: nat, awaited: bool, k: nat)
    requires Inv(r, c) && k <= |r.tasks|
    ensures |Entered(r, awaited)| == 2 * (|r.tasks| + 1) + 1
    ensures var t := r.(promises := Entered(r, awaited), tasks := r.tasks + [Task(Waiting, awaited, false)]);
            TaskOk(t.tasks, c, k) && PromiseOk(t, c, k)
  {
    assert k < |r.tasks| ==> TaskOk(r.tasks, c, k) && PromiseOk(r, c, k);
    assert r.chain == if |r.tasks| == 0 then 0 else HushOf(|r.tasks| - 1);
    assert |r.tasks| > 0 ==> PromiseOk(r, c, |r.tasks| - 1);
  }

  lemma QueuedMore(tasks: seq<Task>, c: nat, task: Task)
    requires c <= |tasks| && task.status.Waiting?
    ensures Queued(tasks + [task], c) == Queued(tasks, c) + if c == |tasks| then [Start(c)] else []
  {
    assert c < |tasks| ==> (tasks + [task])[c] == tasks[c];
    assert c > 0 ==> (tasks + [task])[c - 1] == tasks[c - 1];
  }

  lemma ChainIs(r: Runtime, c: nat)
    requires Inv(r, c)
    ensures r.promises[r.chain].settled <==> c == |r.tasks|
    ensures |r.tasks| > 0 ==> r.chain == HushOf(|r.tasks| - 1)
  {
    assert |r.tasks| > 0 ==> PromiseOk(r, c, |r.tasks| - 1);
  }

  lemma RunInv(r: Runtime, c: nat, awaited: bool)
    requires Inv(r, c)
    ensures Inv(r.After(Run(awaited)), c)
  {
    var n, t := |r.tasks|, r.After(Run(awaited));
    EnterIs(r, awaited);
    QueuedMore(r.tasks, c, Task(Waiting, awaited, false));
    OursJoin(r.jobs, [Start(n)]);
    AllOurs([Start(n)]);
    EnteredOk(r, c, awaited, n);
    ChainIs(r, c);
    hide Runtime.Enter;
    hide Entered;
    hide Ours;
    hide Queued;
    forall k | 0 <= k < |t.tasks| ensures TaskOk(t.tasks, c, k) && PromiseOk(t, c, k) {
      EnteredOk(r, c, awaited, k);
    }
  }

  lemma FinishInv(r: Runtime, c: nat, k: nat, ok: bool)
    requires Inv(r, c) && r.Can(Finish(k, ok))
    ensures Inv(r.After(Finish(k, ok)), c)
  {
    var t := r.After(Finish(k, ok));
    assert TaskOk(r.tasks, c, k) && PromiseOk(r, c, k);
    assert k == c;
    forall j | 0 <= j < |t.tasks| ensures TaskOk(t.tasks, c, j) && PromiseOk(t, c, j) {
      assert TaskOk(r.tasks, c, j) && PromiseOk(r, c, j);
    }
    var told := [Hush(k)] + Caller(r.tasks[k], k);
    OursJoin(r.jobs, told);
    AllOurs(told);
  }

  /** The first of the lock's own jobs is the head of the queue unless that is another's. */
  lemma HeadOfOurs(jobs: seq<Job>)
    requires jobs != []
    ensures jobs[0].Other? ==> Ours(jobs) == Ours(jobs[1..])
    ensures !jobs[0].Other? ==> Ours(jobs) != [] && Ours(jobs)[0] == jobs[0] && Ours(jobs)[1..] == Ours(jobs[1..])
  {
  }

  lemma StartInv(r: Runtime, c: nat)
    requires Inv(r, c) && r.jobs != [] && r.jobs[0].Start? && r.Can(Tick)
    ensures r.jobs[0].task == c && Inv(r.After(Tick), c)
  {
    var t := r.After(Tick);
    HeadOfOurs(r.jobs);
    assert c < |r.tasks| && r.tasks[c].status.Waiting? && Told(r.tasks, c - 1) == [] && r.jobs[0] == Start(c);
    forall j | 0 <= j < |t.tasks| ensures TaskOk(t.tasks, c, j) && PromiseOk(t, c, j) {
      assert TaskOk(r.tasks, c, j) && PromiseOk(r, c, j);
    }
  }

  /** What hushing the first open task means for each task. */
  lemma HushedOk(r: Runtime, c: nat, k: nat)
    requires Inv(r, c) && c < |r.tasks| && r.tasks[c].status.Done? && k < |r.tasks|
    ensures TaskOk(r.tasks, c + 1, k) && PromiseOk(r.Settle(HushOf(c)), c + 1, k)
  {
    assert TaskOk(r.tasks, c, k) && PromiseOk(r, c, k);
    assert c + 1 < |r.tasks| ==> TaskOk(r.tasks, c, c + 1);
  }

  lemma HushedQueue(r: Runtime, c: nat)
    requires Inv(r, c) && r.jobs != [] && r.jobs[0].Hush?
    ensures r.jobs[0] == Hush(c) && c < |r.tasks| && r.tasks[c].status.Done?
    ensures Ours(r.(jobs := r.jobs[1..]).Settle(HushOf(c)).jobs) == Queued(r.tasks, c + 1)
  {
    HeadOfOurs(r.jobs);
    assert TaskOk(r.tasks, c, c) && PromiseOk(r, c, c);
    assert c + 1 < |r.tasks| ==> TaskOk(r.tasks, c, c + 1);
    var next := if c + 1 < |r.tasks| then [Start(c + 1)] else [];
    OursJoin(r.jobs[1..], next);
    AllOurs(next);
  }

  lemma HushInv(r: Runtime, c: nat)
    requires Inv(r, c) && r.jobs != [] && r.jobs[0].Hush? && r.Can(Tick)
    ensures r.jobs[0].task == c < |r.tasks| && Inv(r.After(Tick), c + 1)
  {
    hide Ours;
    hide Queued;
    hide TaskOk;
    HushedQueue(r, c);
    var t, d := r.After(Tick), c + 1;
    forall k | 0 <= k < |t.tasks| ensures TaskOk(t.tasks, d, k) && PromiseOk(t, d, k) {
      HushedOk(r, c, k);
    }
  }

  lemma ResumeInv(r: Runtime, c: nat)
    requires Inv(r, c) && r.jobs != [] && r.jobs[0].Resume? && r.Can(Tick)
    ensures Inv(r.After(Tick), c)
  {
    var t := r.After(Tick);
    HeadOfOurs(r.jobs);
    assert c > 0 && r.jobs[0] == Resume(c - 1) && Told(r.tasks, c - 1) == [Resume(c - 1)];
    forall j | 0 <= j < |t.tasks| ensures TaskOk(t.tasks, c, j) && PromiseOk(t, c, j) {
      assert TaskOk(r.tasks, c, j) && PromiseOk(r, c, j);
    }
    assert Told(t.tasks, c - 1) == [];
  }

  /** The number of tasks that are over, hushed and all, after one step more. */
  ghost function Over(r: Runtime, c: nat, s: Step): nat {
    if s.Tick? && r.jobs != [] && r.jobs[0].Hush? then c + 1 else c
  }

  lemma StepInv(r: Runtime, c: nat, s: Step)
    requires Inv(r, c) && r.Can(s)
    ensures Inv(r.After(s), Over(r, c, s))
  {
    match s
    case Run(awaited) => RunInv(r, c, awaited);
    case Finish(k, ok) => FinishInv(r, c, k, ok);
    case Post =>
      OursJoin(r.jobs, [Other]);
      forall j | 0 <= j < |r.tasks| ensures PromiseOk(r.After(Post), c, j) {
        assert PromiseOk(r, c, j);
      }
    case Tick =>
      HeadOfOurs(r.jobs);
      match r.jobs[0]
      case Start(_) => StartInv(r, c);
      case Hush(_) => HushInv(r, c);
      case Resume(_) => ResumeInv(r, c);
      case Other =>
        forall j | 0 <= j < |r.tasks| ensures PromiseOk(r.After(Tick), c, j) {
          assert PromiseOk(r, c, j);
        }
  }

  lemma {:induction false} ReachedInv(r: Runtime, c: nat, steps: seq<Step>) returns (d: nat)
    requires Inv(r, c) && Possible(r, steps)
    ensures Inv(Reached(r, steps), d)
    decreases |steps|
  {
    if steps == [] {
      d := c;
    } else {
      StepInv(r, c, steps[0]);
      d := ReachedInv(r.After(steps[0]), Over(r, c, steps[0]), steps[1..]);
    }
  }

  class Lock {
    var runtime: Runtime

    ghost predicate Valid()
      reads this
    {
      exists c :: Inv(runtime, c)
    }

    constructor ()
      ensures runtime == INITIAL && Valid()
    {
      runtime := INITIAL;
      new;
      assert Inv(runtime, 0);
    }

    /** `run`, and its caller's `await`: the task goes behind the chain, and the chain behind the task. */
    method Run(awaited: bool) returns (result: nat)
      requires Valid()
      modifies this
      ensures Valid() && runtime == old(runtime).After(Step.Run(awaited)) && result == |old(runtime.promises)|
    {
      ghost var c :| Inv(runtime, c);
      RunInv(runtime, c, awaited);
      var n, chain := |runtime.tasks|, runtime.chain;
      result := |runtime.promises|;
      runtime := runtime.(promises := runtime.promises + [Promise(false, []), Promise(false, [])], chain := result + 1,
                          tasks := runtime.tasks + [Task(Waiting, awaited, false)]);
      runtime := runtime.Then(chain, Start(n));
      runtime := runtime.Then(result, Hush(n));
      if awaited {
        runtime := runtime.Then(result, Resume(n));
      }
    }
  }

  // ------------------------------------------------------------------ what the lock promises

  /** Whatever runs beside it: a task starts only when every task before it is done, so that at most one
      runs, in the order of the calls; and every caller that awaits an earlier one has gone on by then. */
  lemma OneAtATimeInOrder(steps: seq<Step>, i: nat, j: nat)
    requires Possible(INITIAL, steps)
    requires i < j < |Reached(INITIAL, steps).tasks| && !Reached(INITIAL, steps).tasks[j].status.Waiting?
    ensures var tasks := Reached(INITIAL, steps).tasks;
            tasks[i].status.Done? && (tasks[i].awaited ==> tasks[i].resumed)
  {
    var c := ReachedInv(INITIAL, 0, steps);
    var tasks := Reached(INITIAL, steps).tasks;
    assert TaskOk(tasks, c, i) && TaskOk(tasks, c, j);
  }

  function Ticks(r: Runtime, n: nat): (t: Runtime)
    decreases n
  {
    if n == 0 || !r.Can(Tick) then r else Ticks(r.After(Tick), n - 1)
  }

  lemma CanTick(r: Runtime, c: nat)
    requires Inv(r, c) && r.jobs != []
    ensures r.Can(Tick)
  {
    HeadOfOurs(r.jobs);
  }

  /** The first task waiting is the first one not hushed, or the one behind that. */
  lemma Frontier(r: Runtime, c: nat, j: nat)
    requires Inv(r, c) && j < |r.tasks| && r.tasks[j].status.Waiting?
    requires forall i :: 0 <= i < j ==> r.tasks[i].status.Done?
    ensures r.jobs != [] && c <= j <= c + 1 && (j > c ==> r.tasks[c].status.Done?)
  {
    assert TaskOk(r.tasks, c, j);
    assert c + 1 < |r.tasks| ==> TaskOk(r.tasks, c, c + 1);
  }

  /** Jobs other than a start leave what the tasks do alone. */
  lemma TickKeeps(r: Runtime, c: nat)
    requires Inv(r, c) && r.Can(Tick) && !r.jobs[0].Start?
    ensures var t := r.After(Tick);
            && |t.tasks| == |r.tasks| && forall i :: 0 <= i < |t.tasks| ==> t.tasks[i].status == r.tasks[i].status
    ensures |r.After(Tick).jobs| <= |r.jobs| - (if r.jobs[0].Hush? then 0 else 1)
    ensures r.jobs[0].Hush? ==> c < |r.tasks| && r.tasks[c].status.Done?
  {
    HeadOfOurs(r.jobs);
    if r.jobs[0].Hush? {
      assert PromiseOk(r, c, c);
    }
  }

  lemma StartsIt(r: Runtime, c: nat, j: nat)
    requires Inv(r, c) && r.Can(Tick) && r.jobs[0].Start? && c <= j <= c + 1 && j < |r.tasks|
    requires j > c ==> r.tasks[c].status.Done?
    ensures |Ticks(r, 1).tasks| == |r.tasks| && Ticks(r, 1).tasks[j].status.Running?
  {
    StartInv(r, c);
    HeadOfOurs(r.jobs);
    assert Ticks(r, 1) == Ticks(r.After(Tick), 0);
  }

  /** A failed task does not block the chain: when no task runs, the first one waiting starts once the
      queued jobs, and at most one more, have run. */
  lemma {:induction false} NextStarts(r: Runtime, c: nat, j: nat) returns (n: nat)
    requires Inv(r, c) && j < |r.tasks| && r.tasks[j].status.Waiting?
    requires forall i :: 0 <= i < j ==> r.tasks[i].status.Done?
    ensures n <= |r.jobs| + (if j > c then 1 else 0)
    ensures |Ticks(r, n).tasks| == |r.tasks| && Ticks(r, n).tasks[j].status.Running?
    decreases |r.jobs| + (if j > c then 1 else 0)
  {
    hide Inv;
    Frontier(r, c, j);
    CanTick(r, c);
    var t := r.After(Tick);
    StepInv(r, c, Tick);
    var m := 0;
    if r.jobs[0].Start? {
      StartsIt(r, c, j);
    } else {
      TickKeeps(r, c);
      m := NextStarts(t, Over(r, c, Tick), j);
    }
    n := m + 1;
  }

  /** In every reachable state: while a task waits and none runs, the first one waiting starts once the
      queued jobs, and at most one more, have run; whether earlier tasks failed makes no difference. */
  lemma NeverStuck(steps: seq<Step>, j: nat) returns (n: nat)
    requires Possible(INITIAL, steps) && j < |Reached(INITIAL, steps).tasks|
    requires var tasks := Reached(INITIAL, steps).tasks;
             tasks[j].status.Waiting? && forall i :: 0 <= i < j ==> tasks[i].status.Done?
    ensures var r := Reached(INITIAL, steps);
            && n <= |r.jobs| + 1
            && |Ticks(r, n).tasks| == |r.tasks| && Ticks(r, n).tasks[j].status.Running?
  {
    var c := ReachedInv(INITIAL, 0, steps);
    n := NextStarts(Reached(INITIAL, steps), c, j);
  }
}
