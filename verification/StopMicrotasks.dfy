/**
 The end of `stop` in tools/loadgen/aggregation.ts at the grain of microtasks, when the grace sleep takes no
 time: which outcome the accounting checks have, told by when the aborted requests settle. Every promise
 chain has at most one job in the queue; running it puts the chain's next job at the end (section 9.5 of
 ECMA-262: jobs run in the order in which they were enqueued).
 */
module StopMicrotasks {
  import opened Prelude
  import opened T = TickScheduling
  import opened S = SchedulerStop

  /** A job of a request: before `send` has settled, in `then` or `catch`, passed on, in `finally`. */
  datatype Job = Wait | Count(kind: Kind) | Pass | Remove

  /**
   A chain with its jobs still to run. `stop` has three: behind `Promise.resolve()` it builds the race, the
   race sees the sleep that has ended already, and behind the race it reports.
   */
  datatype Task = Chain(request: nat, jobs: seq<Job>) | Stopper(left: nat)

  /** How an aborted `send` answers: after some microtasks, with a result or by rejecting. */
  datatype Answer = Resolves(delay: nat, kind: Kind) | Rejects(delay: nat)

  function Waits(delay: nat): seq<Job> {
    seq(delay, _ => Wait)
  }

  /** `.then(...).catch(...).finally(...)`: a result is counted in `then` and passed by `catch`. */
  function JobsOfAnswer(a: Answer): seq<Job> {
    match a
    case Resolves(delay, kind) => Waits(delay) + [Count(kind), Pass, Remove]
    case Rejects(delay) => Waits(delay) + [Pass, Count(Transport), Remove]
  }

  // ---------------------------------------------------------------- running the queue

  function Perform(c: Config, drainTimeout: nat, w: World, e: StopEvent): World
    requires IsConfig(c)
  {
    if S.Enabled(w, e) then S.Next(c, drainTimeout, w, e) else w
  }

  function RunJob(c: Config, drainTimeout: nat, w: World, i: nat, job: Job): World
    requires IsConfig(c)
  {
    match job
    case Count(kind) => Perform(c, drainTimeout, w, Ticking(Completes(i, kind)))
    case Remove => Perform(c, drainTimeout, w, Ticking(IsRemoved(i)))
    case _ => w
  }

  function RunStopJob(c: Config, drainTimeout: nat, w: World, left: nat): World
    requires IsConfig(c)
  {
    if left == 3 then Perform(c, drainTimeout, w, RaceBuilt)
    else if left == 2 then
      Perform(c, drainTimeout, w, if w.stage.Racing? && w.stage.awaited == {} then AllHaveSettled else GraceSleepEnds)
    else Perform(c, drainTimeout, w, Report)
  }

  function Work(queue: seq<Task>): nat {
    if queue == [] then 0 else
    (match queue[0] case Chain(_, jobs) => |jobs| + 1 case Stopper(left) => left + 1) + Work(queue[1..])
  }

  lemma {:induction false} WorkAppend(a: seq<Task>, b: seq<Task>)
    ensures Work(a + b) == Work(a) + Work(b)
  {
    if a == [] {
      assert a + b == b;
    } else {
      WorkAppend(a[1..], b);
      assert (a + b)[1..] == a[1..] + b;
    }
  }

  /** What a task leaves to do after its first job. */
  function Rest(task: Task): seq<Task> {
    match task
    case Chain(i, jobs) => if |jobs| > 1 then [Chain(i, jobs[1..])] else []
    case Stopper(left) => if left > 1 then [Stopper(left - 1)] else []
  }

  /** The queue until `stop` has reported. */
  function RunQueue(c: Config, drainTimeout: nat, queue: seq<Task>, w: World): World
    requires IsConfig(c)
    decreases Work(queue)
  {
    if queue == [] || w.stage.Reported? then w else
    WorkAppend(queue[1..], Rest(queue[0]));
    RunQueue(c, drainTimeout, queue[1..] + Rest(queue[0]),
             match queue[0]
             case Chain(i, jobs) => if jobs == [] then w else RunJob(c, drainTimeout, w, i, jobs[0])
             case Stopper(left) => RunStopJob(c, drainTimeout, w, left))
  }

  // ---------------------------------------------------------------- rounds

  /** The phase of a request after a job, and after the first `n` of its jobs. */
  function PhaseAfterJob(phase: Request, job: Job): Request {
    match job case Count(_) => Counted case Remove => Removed case _ => phase
  }

  function PhaseAfter(phase: Request, jobs: seq<Job>, n: nat): Request
    decreases n
  {
    if n == 0 || jobs == [] then phase else PhaseAfter(PhaseAfterJob(phase, jobs[0]), jobs[1..], n - 1)
  }

  /** The jobs count the outcome of a sent request, and then remove it, and that ends them. */
  predicate IsRestOfChain(phase: Request, jobs: seq<Job>)
    decreases |jobs|
  {
    if jobs == [] then phase.Removed?
    else match jobs[0]
    case Count(_) => phase.Sent? && IsRestOfChain(Counted, jobs[1..])
    case Remove => phase.Counted? && IsRestOfChain(Removed, jobs[1..])
    case _ => !phase.Removed? && IsRestOfChain(phase, jobs[1..])
  }

  predicate IsChainOf(requests: seq<Request>, task: Task) {
    task.Chain? && task.jobs != [] && task.request < |requests| && IsRestOfChain(requests[task.request], task.jobs)
  }

  ghost predicate AreChains(requests: seq<Request>, tasks: seq<Task>) {
    && (forall k :: 0 <= k < |tasks| ==> IsChainOf(requests, tasks[k]))
    && (forall k, j :: 0 <= k < j < |tasks| ==> tasks[k].request != tasks[j].request)
  }

  function JobsOf(tasks: seq<Task>, i: nat): seq<Job> {
    if tasks == [] then [] else
    match tasks[0]
    case Chain(j, jobs) => if j == i then jobs else JobsOf(tasks[1..], i)
    case Stopper(_) => JobsOf(tasks[1..], i)
  }

  /** One job of every task, in order; and the tasks that have jobs left. */
  function RunFirstJobs(c: Config, drainTimeout: nat, tasks: seq<Task>, w: World): World
    requires IsConfig(c)
  {
    if tasks == [] then w else
    RunFirstJobs(c, drainTimeout, tasks[1..],
                 match tasks[0]
                 case Chain(i, jobs) => if jobs == [] then w else RunJob(c, drainTimeout, w, i, jobs[0])
                 case Stopper(_) => w)
  }

  function Advance(tasks: seq<Task>): seq<Task> {
    if tasks == [] then [] else Rest(tasks[0]) + Advance(tasks[1..])
  }

  lemma RunJobDoes(c: Config, drainTimeout: nat, w: World, i: nat, jobs: seq<Job>)
    requires S.Invariant(c, w) && i < |w.ticks.requests| && jobs != []
    requires IsRestOfChain(w.ticks.requests[i], jobs)
    ensures var after := RunJob(c, drainTimeout, w, i, jobs[0]);
            && S.Invariant(c, after) && after.stage == w.stage
            && after.ticks.requests == w.ticks.requests[i := PhaseAfterJob(w.ticks.requests[i], jobs[0])]
            && IsRestOfChain(after.ticks.requests[i], jobs[1..])
  {
    match jobs[0]
    case Count(kind) => S.NextKeepsInvariant(c, drainTimeout, w, Ticking(Completes(i, kind)));
    case Remove => S.NextKeepsInvariant(c, drainTimeout, w, Ticking(IsRemoved(i)));
    case _ =>
  }

  lemma ChainAtHead(c: Config, drainTimeout: nat, todo: seq<Task>, left: nat, done: seq<Task>, w: World)
    requires IsConfig(c) && !w.stage.Reported? && todo != [] && todo[0].Chain? && todo[0].jobs != []
    ensures RunQueue(c, drainTimeout, todo + [Stopper(left)] + done, w)
         == RunQueue(c, drainTimeout, todo[1..] + [Stopper(left)] + (done + Rest(todo[0])),
                     RunJob(c, drainTimeout, w, todo[0].request, todo[0].jobs[0]))
  {
    hide RunJob;
    var queue := todo + [Stopper(left)] + done;
    assert queue[0] == todo[0];
    assert queue[1..] + Rest(todo[0]) == todo[1..] + [Stopper(left)] + (done + Rest(todo[0]));
  }

  /** The queue runs one job of each chain in front of `stop` before it comes to `stop`. */
  lemma {:induction false} ChainsRunFirst(c: Config, drainTimeout: nat, todo: seq<Task>, left: nat, done: seq<Task>,
                                          w: World)
    requires S.Invariant(c, w) && !w.stage.Reported? && AreChains(w.ticks.requests, todo)
    ensures RunQueue(c, drainTimeout, todo + [Stopper(left)] + done, w)
         == RunQueue(c, drainTimeout, [Stopper(left)] + done + Advance(todo), RunFirstJobs(c, drainTimeout, todo, w))
    decreases |todo|
  {
    assert IsConfig(c);
    hide IsRestOfChain, RunJob, RunQueue, S.Invariant, PhaseAfterJob, Rest;
    if todo == [] {
      assert todo + [Stopper(left)] + done == [Stopper(left)] + done + Advance(todo);
    } else {
      var i, jobs := todo[0].request, todo[0].jobs;
      assert IsChainOf(w.ticks.requests, todo[0]);
      RunJobDoes(c, drainTimeout, w, i, jobs);
      var after := RunJob(c, drainTimeout, w, i, jobs[0]);
      OthersStayChains(w.ticks.requests, after.ticks.requests, todo);
      ChainAtHead(c, drainTimeout, todo, left, done, w);
      ChainsRunFirst(c, drainTimeout, todo[1..], left, done + Rest(todo[0]), after);
      assert [Stopper(left)] + (done + Rest(todo[0])) + Advance(todo[1..]) == [Stopper(left)] + done + Advance(todo);
    }
  }

  lemma OthersStayChains(requests: seq<Request>, after: seq<Request>, tasks: seq<Task>)
    requires tasks != [] && AreChains(requests, tasks) && |after| == |requests|
    requires forall i :: 0 <= i < |requests| && i != tasks[0].request ==> after[i] == requests[i]
    ensures AreChains(after, tasks[1..])
  {
    hide IsRestOfChain;
    forall k | 0 <= k < |tasks[1..]| ensures IsChainOf(after, tasks[1..][k]) {
      assert tasks[1..][k] == tasks[k + 1] && IsChainOf(requests, tasks[k + 1]) &&
        tasks[0].request != tasks[k + 1].request;
    }
  }

  lemma {:induction false} NoJobs(tasks: seq<Task>, i: nat)
    requires forall k :: 0 <= k < |tasks| ==> tasks[k].Chain? && tasks[k].request != i
    ensures JobsOf(tasks, i) == [] && JobsOf(Advance(tasks), i) == []
    ensures forall k :: 0 <= k < |Advance(tasks)| ==> Advance(tasks)[k].Chain? && Advance(tasks)[k].request != i
  {
    if tasks != [] {
      NoJobs(tasks[1..], i);
      JobsBehind(tasks[0], Advance(tasks[1..]), i);
    }
  }

  /** A round moves every request one job further, and leaves the others alone. */
  lemma {:induction false} RoundMoves(c: Config, drainTimeout: nat, tasks: seq<Task>, w: World, i: nat)
    requires S.Invariant(c, w) && AreChains(w.ticks.requests, tasks) && i < |w.ticks.requests|
    ensures var after, jobs := RunFirstJobs(c, drainTimeout, tasks, w), JobsOf(tasks, i);
            && S.Invariant(c, after) && after.stage == w.stage && |after.ticks.requests| == |w.ticks.requests|
            && after.ticks.requests[i] == PhaseAfter(w.ticks.requests[i], jobs, 1)
            && JobsOf(Advance(tasks), i) == (if jobs == [] then [] else jobs[1..])
            && (jobs != [] ==> IsRestOfChain(after.ticks.requests[i], jobs[1..]))
    decreases |tasks|
  {
    assert IsConfig(c);
    hide RunJob, S.Invariant, PhaseAfterJob;
    if tasks != [] {
      var j, jobs := tasks[0].request, tasks[0].jobs;
      assert IsChainOf(w.ticks.requests, tasks[0]);
      RunJobDoes(c, drainTimeout, w, j, jobs);
      var after := RunJob(c, drainTimeout, w, j, jobs[0]);
      OthersStayChains(w.ticks.requests, after.ticks.requests, tasks);
      RoundMoves(c, drainTimeout, tasks[1..], after, i);
      if i == j {
        forall k | 0 <= k < |tasks[1..]| ensures tasks[1..][k].Chain? && tasks[1..][k].request != i {
          assert tasks[1..][k] == tasks[k + 1] && IsChainOf(w.ticks.requests, tasks[k + 1]);
        }
        NoJobs(tasks[1..], i);
        assert PhaseAfter(w.ticks.requests[i], jobs, 1) ==
          PhaseAfter(PhaseAfterJob(w.ticks.requests[i], jobs[0]), jobs[1..], 0);
        JobsInFront(tasks[0], Advance(tasks[1..]), i);
      } else {
        JobsBehind(tasks[0], Advance(tasks[1..]), i);
      }
    }
  }

  lemma JobsInFront(task: Task, others: seq<Task>, i: nat)
    requires task.Chain? && task.request == i && task.jobs != [] && JobsOf(others, i) == []
    ensures JobsOf(Rest(task) + others, i) == task.jobs[1..]
  {
    if |task.jobs| > 1 {
      assert (Rest(task) + others)[0] == Chain(i, task.jobs[1..]);
    } else {
      assert Rest(task) + others == others;
    }
  }

  lemma JobsBehind(task: Task, others: seq<Task>, i: nat)
    requires task.Chain? && task.request != i
    ensures JobsOf(Rest(task) + others, i) == JobsOf(others, i)
  {
    if |task.jobs| > 1 {
      assert (Rest(task) + others)[1..] == others;
    } else {
      assert Rest(task) + others == others;
    }
  }

  /** After a round the chains that have jobs left are chains of the requests again. */
  lemma {:induction false} RoundKeepsChains(c: Config, drainTimeout: nat, tasks: seq<Task>, w: World)
    requires S.Invariant(c, w) && AreChains(w.ticks.requests, tasks)
    ensures var after := RunFirstJobs(c, drainTimeout, tasks, w);
            && S.Invariant(c, after) && after.stage == w.stage && |after.ticks.requests| == |w.ticks.requests|
            && AreChains(after.ticks.requests, Advance(tasks))
    decreases |tasks|
  {
    assert IsConfig(c);
    hide RunJob, S.Invariant, PhaseAfterJob, IsRestOfChain;
    if tasks != [] {
      var j, jobs := tasks[0].request, tasks[0].jobs;
      assert IsChainOf(w.ticks.requests, tasks[0]);
      RunJobDoes(c, drainTimeout, w, j, jobs);
      var first := RunJob(c, drainTimeout, w, j, jobs[0]);
      OthersStayChains(w.ticks.requests, first.ticks.requests, tasks);
      RoundKeepsChains(c, drainTimeout, tasks[1..], first);
      forall k | 0 <= k < |tasks[1..]| ensures tasks[1..][k].Chain? && tasks[1..][k].request != j {
        assert tasks[1..][k] == tasks[k + 1] && IsChainOf(w.ticks.requests, tasks[k + 1]);
      }
      NoJobs(tasks[1..], j);
      RoundMoves(c, drainTimeout, tasks, w, j);
      var after := RunFirstJobs(c, drainTimeout, tasks, w);
      assert JobsOf(tasks, j) == jobs;
      assert |jobs| > 1 ==> IsChainOf(after.ticks.requests, Chain(j, jobs[1..]));
    }
  }

  // ---------------------------------------------------------------- the three rounds

  /** A request whose outcome is counted within the three rounds before the report, but which is not removed. */
  predicate IsCaught(phase: Request, jobs: seq<Job>) {
    PhaseAfter(phase, jobs, 3).Counted?
  }

  lemma PhaseAfterThree(phase: Request, jobs: seq<Job>)
    ensures var one := PhaseAfter(phase, jobs, 1);
            var rest := if jobs == [] then [] else jobs[1..];
            var two := PhaseAfter(one, rest, 1);
            var rest2 := if rest == [] then [] else rest[1..];
            PhaseAfter(phase, jobs, 3) == PhaseAfter(two, rest2, 1)
  {
    if jobs != [] {
      var one := PhaseAfterJob(phase, jobs[0]);
      assert PhaseAfter(phase, jobs, 1) == PhaseAfter(one, jobs[1..], 0) == one;
      assert PhaseAfter(phase, jobs, 3) == PhaseAfter(one, jobs[1..], 2);
      if jobs[1..] != [] {
        var two := PhaseAfterJob(one, jobs[1..][0]);
        assert PhaseAfter(one, jobs[1..], 1) == PhaseAfter(two, jobs[1..][1..], 0) == two;
        assert PhaseAfter(one, jobs[1..], 2) == PhaseAfter(two, jobs[1..][1..], 1);
      }
    }
  }

  /** One job of `stop` at the head of the queue, between two rounds. */
  lemma StopRuns(c: Config, drainTimeout: nat, left: nat, tasks: seq<Task>, w: World)
    requires IsConfig(c) && !w.stage.Reported? && left > 1
    ensures RunQueue(c, drainTimeout, [Stopper(left)] + tasks, w)
         == RunQueue(c, drainTimeout, tasks + [Stopper(left - 1)], RunStopJob(c, drainTimeout, w, left))
  {
    hide RunStopJob;
    assert ([Stopper(left)] + tasks)[1..] == tasks;
  }

  lemma StopReports(c: Config, drainTimeout: nat, tasks: seq<Task>, w: World)
    requires S.Invariant(c, w) && w.stage.Raced?
    ensures RunQueue(c, drainTimeout, [Stopper(1)] + tasks, w).stage
         == Reported(w.stage.winner, if HasCounted(w.ticks.requests) then Some(Terminal) else None)
  {
    ChecksOfState(c, w.ticks);
    assert IsConfig(c);
    hide InFlight, CheckCounters, T.Invariant;
    assert ([Stopper(1)] + tasks)[1..] == tasks && tasks + Rest(Stopper(1)) == tasks;
    var after := RunStopJob(c, drainTimeout, w, 1);
    assert after.stage.Reported?;
  }

  /** A round of the chains and then a job of `stop`. */
  function Round(c: Config, drainTimeout: nat, left: nat, tasks: seq<Task>, w: World): World
    requires IsConfig(c)
  {
    RunStopJob(c, drainTimeout, RunFirstJobs(c, drainTimeout, tasks, w), left)
  }

  lemma QueueRunsRound(c: Config, drainTimeout: nat, left: nat, tasks: seq<Task>, w: World)
    requires S.Invariant(c, w) && !w.stage.Reported? && AreChains(w.ticks.requests, tasks) && left > 1
    ensures RunQueue(c, drainTimeout, tasks + [Stopper(left)], w)
         == RunQueue(c, drainTimeout, Advance(tasks) + [Stopper(left - 1)], Round(c, drainTimeout, left, tasks, w))
  {
    ChainsRunFirst(c, drainTimeout, tasks, left, [], w);
    RoundKeepsChains(c, drainTimeout, tasks, w);
    hide RunFirstJobs, RunStopJob, AreChains, Advance, S.Invariant, RunQueue;
    assert tasks + [Stopper(left)] + [] == tasks + [Stopper(left)];
    assert [Stopper(left)] + [] + Advance(tasks) == [Stopper(left)] + Advance(tasks);
    StopRuns(c, drainTimeout, left, Advance(tasks), RunFirstJobs(c, drainTimeout, tasks, w));
  }

  /** The first two jobs of `stop` change its stage only. */
  lemma StopJobsDo(c: Config, drainTimeout: nat, w: World)
    requires S.Invariant(c, w)
    ensures w.stage.Aborting? ==>
              var after := RunStopJob(c, drainTimeout, w, 3);
              S.Invariant(c, after) && after.ticks == w.ticks && after.stage.Racing?
    ensures w.stage.Racing? ==>
              var after := RunStopJob(c, drainTimeout, w, 2);
              S.Invariant(c, after) && after.ticks == w.ticks && after.stage.Raced?
  {
    hide T.Invariant, InFlight;
    if w.stage.Aborting? {
      S.NextKeepsInvariant(c, drainTimeout, w, RaceBuilt);
    } else if w.stage.Racing? {
      S.NextKeepsInvariant(c, drainTimeout, w, if w.stage.awaited == {} then AllHaveSettled else GraceSleepEnds);
    }
  }

  lemma RoundDoes(c: Config, drainTimeout: nat, left: nat, tasks: seq<Task>, w: World)
    requires S.Invariant(c, w) && AreChains(w.ticks.requests, tasks)
    requires (left == 3 && w.stage.Aborting?) || (left == 2 && w.stage.Racing?)
    ensures var after := Round(c, drainTimeout, left, tasks, w);
            && S.Invariant(c, after) && AreChains(after.ticks.requests, Advance(tasks))
            && |after.ticks.requests| == |w.ticks.requests|
            && (if left == 3 then after.stage.Racing? else after.stage.Raced?)
            && after.ticks == RunFirstJobs(c, drainTimeout, tasks, w).ticks
  {
    RoundKeepsChains(c, drainTimeout, tasks, w);
    StopJobsDo(c, drainTimeout, RunFirstJobs(c, drainTimeout, tasks, w));
    hide S.Invariant, AreChains, RunFirstJobs, RunStopJob, Advance;
  }

  /** The requests after the three rounds in front of the report. */
  function BeforeReport(c: Config, drainTimeout: nat, tasks: seq<Task>, w: World): World
    requires IsConfig(c)
  {
    var w1 := Round(c, drainTimeout, 3, tasks, w);
    var w2 := Round(c, drainTimeout, 2, Advance(tasks), w1);
    RunFirstJobs(c, drainTimeout, Advance(Advance(tasks)), w2)
  }

  lemma QueueReachesReport(c: Config, drainTimeout: nat, tasks: seq<Task>, w: World)
    requires S.Invariant(c, w) && w.stage.Aborting? && AreChains(w.ticks.requests, tasks)
    ensures var before := BeforeReport(c, drainTimeout, tasks, w);
            && S.Invariant(c, before) && before.stage.Raced? && |before.ticks.requests| == |w.ticks.requests|
            && RunQueue(c, drainTimeout, tasks + [Stopper(3)], w)
            == RunQueue(c, drainTimeout, [Stopper(1)] + Advance(Advance(Advance(tasks))), before)
  {
    assert IsConfig(c);
    hide S.Invariant, AreChains, RunFirstJobs, Round, Advance, RunQueue;
    QueueRunsRound(c, drainTimeout, 3, tasks, w);
    RoundDoes(c, drainTimeout, 3, tasks, w);
    LastTwoRounds(c, drainTimeout, Advance(tasks), Round(c, drainTimeout, 3, tasks, w));
  }

  lemma LastTwoRounds(c: Config, drainTimeout: nat, tasks: seq<Task>, w: World)
    requires S.Invariant(c, w) && w.stage.Racing? && AreChains(w.ticks.requests, tasks)
    ensures var before := RunFirstJobs(c, drainTimeout, Advance(tasks), Round(c, drainTimeout, 2, tasks, w));
            && S.Invariant(c, before) && before.stage.Raced? && |before.ticks.requests| == |w.ticks.requests|
            && RunQueue(c, drainTimeout, tasks + [Stopper(2)], w)
            == RunQueue(c, drainTimeout, [Stopper(1)] + Advance(Advance(tasks)), before)
  {
    assert IsConfig(c);
    hide S.Invariant, AreChains, RunFirstJobs, Round, Advance, RunQueue;
    QueueRunsRound(c, drainTimeout, 2, tasks, w);
    RoundDoes(c, drainTimeout, 2, tasks, w);
    LastRound(c, drainTimeout, Advance(tasks), Round(c, drainTimeout, 2, tasks, w));
  }

  lemma LastRound(c: Config, drainTimeout: nat, tasks: seq<Task>, w: World)
    requires S.Invariant(c, w) && w.stage.Raced? && AreChains(w.ticks.requests, tasks)
    ensures var before := RunFirstJobs(c, drainTimeout, tasks, w);
            && S.Invariant(c, before) && before.stage.Raced? && |before.ticks.requests| == |w.ticks.requests|
            && RunQueue(c, drainTimeout, tasks + [Stopper(1)], w)
            == RunQueue(c, drainTimeout, [Stopper(1)] + Advance(tasks), before)
  {
    assert IsConfig(c);
    hide S.Invariant, AreChains, RunFirstJobs, Advance, RunQueue;
    ChainsRunFirst(c, drainTimeout, tasks, 1, [], w);
    RoundKeepsChains(c, drainTimeout, tasks, w);
    assert tasks + [Stopper(1)] + [] == tasks + [Stopper(1)];
    assert [Stopper(1)] + [] + Advance(tasks) == [Stopper(1)] + Advance(tasks);
  }

  lemma PhaseBeforeReport(c: Config, drainTimeout: nat, tasks: seq<Task>, w: World, i: nat)
    requires S.Invariant(c, w) && w.stage.Aborting? && AreChains(w.ticks.requests, tasks) && i < |w.ticks.requests|
    ensures var before := BeforeReport(c, drainTimeout, tasks, w);
            |before.ticks.requests| == |w.ticks.requests|
            && before.ticks.requests[i] == PhaseAfter(w.ticks.requests[i], JobsOf(tasks, i), 3)
  {
    assert IsConfig(c);
    hide S.Invariant, AreChains, RunFirstJobs, Round, Advance, PhaseAfter, IsRestOfChain, JobsOf;
    RoundMoves(c, drainTimeout, tasks, w, i);
    RoundDoes(c, drainTimeout, 3, tasks, w);
    var w1, tasks1 := Round(c, drainTimeout, 3, tasks, w), Advance(tasks);
    RoundMoves(c, drainTimeout, tasks1, w1, i);
    RoundDoes(c, drainTimeout, 2, tasks1, w1);
    var w2, tasks2 := Round(c, drainTimeout, 2, tasks1, w1), Advance(tasks1);
    RoundMoves(c, drainTimeout, tasks2, w2, i);
    PhaseAfterThree(w.ticks.requests[i], JobsOf(tasks, i));
  }

  /**
   The whole end of `stop`: from the abort, with the jobs of the requests in flight queued in any order, the
   checks throw if and only if some request is caught, and then it is the terminal check.
   */
  lemma ReportOfQueue(c: Config, drainTimeout: nat, tasks: seq<Task>, w: World)
    requires S.Invariant(c, w) && w.stage.Aborting? && AreChains(w.ticks.requests, tasks)
    ensures var stage := RunQueue(c, drainTimeout, tasks + [Stopper(3)], w).stage;
            && stage.Reported?
            && stage.error ==
               if exists i :: 0 <= i < |w.ticks.requests| && IsCaught(w.ticks.requests[i], JobsOf(tasks, i))
                              then Some(Terminal) else None
  {
    assert IsConfig(c);
    hide S.Invariant, AreChains, BeforeReport, RunQueue, PhaseAfter, JobsOf;
    var before := BeforeReport(c, drainTimeout, tasks, w);
    QueueReachesReport(c, drainTimeout, tasks, w);
    StopReports(c, drainTimeout, Advance(Advance(Advance(tasks))), before);
    forall i | 0 <= i < |w.ticks.requests|
      ensures before.ticks.requests[i].Counted? <==> IsCaught(w.ticks.requests[i], JobsOf(tasks, i))
    {
      PhaseBeforeReport(c, drainTimeout, tasks, w, i);
    }
  }

  // ---------------------------------------------------------------- when is a request caught

  /**
   A request that was still unanswered at the abort is caught exactly when its `send` resolves one or two
   microtasks after the abort, or rejects one microtask after it.
   */
  lemma CaughtByDelay(a: Answer)
    ensures IsRestOfChain(Sent, JobsOfAnswer(a))
    ensures IsCaught(Sent, JobsOfAnswer(a)) <==> a.delay == 1 || (a.Resolves? && a.delay == 2)
  {
    AnswerIsChain(a);
    if a.delay >= 3 {
      var jobs := JobsOfAnswer(a);
      assert jobs[0] == jobs[1] == jobs[2] == Wait;
      PhaseAfterThree(Sent, jobs);
      assert jobs[1..][0] == Wait && jobs[1..][1..][0] == Wait;
    } else {
      ShortDelays(a);
    }
  }

  lemma ShortDelays(a: Answer)
    requires a.delay <= 2
    ensures PhaseAfter(Sent, JobsOfAnswer(a), 3).Counted? <==> a.delay == 1 || (a.Resolves? && a.delay == 2)
  {
    var jobs := JobsOfAnswer(a);
    var tail := JobsOfAnswer(if a.Resolves? then Resolves(0, a.kind) else Rejects(0));
    if a.delay == 0 {
      assert jobs == tail;
    } else if a.delay == 1 {
      assert jobs == [Wait] + tail;
    } else {
      assert jobs == [Wait, Wait] + tail;
    }
    PhaseAfterThree(Sent, jobs);
  }

  lemma {:induction false} AnswerIsChain(a: Answer)
    ensures IsRestOfChain(Sent, JobsOfAnswer(a))
    decreases a.delay
  {
    if a.delay == 0 {
      var jobs := JobsOfAnswer(a);
      assert Waits(0) == [] && |jobs| == 3;
      assert jobs[1..][1..] == [Remove] && [Remove][1..] == [];
      assert IsRestOfChain(Counted, [Remove]);
      assert IsRestOfChain(if a.Resolves? then Counted else Sent, jobs[1..]);
    } else {
      var less := match a {
        case Resolves(delay, kind) => Resolves(delay - 1, kind)
        case Rejects(delay) => Rejects(delay - 1)
      };
      AnswerIsChain(less);
      assert JobsOfAnswer(a)[0] == Wait && JobsOfAnswer(a)[1..] == JobsOfAnswer(less);
    }
  }

  // ---------------------------------------------------------------- the checks, told by the delays

  predicate IsLate(a: Answer) {
    a.delay == 1 || (a.Resolves? && a.delay == 2)
  }

  /** A request in flight at the abort and its answer. */
  datatype Answered = Answered(request: nat, answer: Answer)

  function Queue(answers: seq<Answered>): seq<Task> {
    seq(|answers|, k requires 0 <= k < |answers| => Chain(answers[k].request, JobsOfAnswer(answers[k].answer)))
  }

  /** Different requests, none of them answered yet. */
  ghost predicate AreUnanswered(requests: seq<Request>, answers: seq<Answered>) {
    && (forall k :: 0 <= k < |answers| ==> answers[k].request < |requests| && requests[answers[k].request].Sent?)
    && (forall k, j :: 0 <= k < j < |answers| ==> answers[k].request != answers[j].request)
  }

  lemma {:induction false} JobsOfQueue(answers: seq<Answered>, i: nat)
    ensures JobsOf(Queue(answers), i) == [] ||
      exists k ::
        && 0 <= k < |answers| && answers[k].request == i
        && JobsOf(Queue(answers), i) == JobsOfAnswer(answers[k].answer)
    ensures (forall k :: 0 <= k < |answers| ==> answers[k].request != i) ==> JobsOf(Queue(answers), i) == []
  {
    hide JobsOfAnswer;
    if answers != [] {
      JobsOfQueue(answers[1..], i);
      assert Queue(answers)[1..] == Queue(answers[1..]);
      if answers[0].request != i && JobsOf(Queue(answers[1..]), i) != [] {
        var k :| 0 <= k < |answers[1..]| && answers[1..][k].request == i &&
          JobsOf(Queue(answers[1..]), i) == JobsOfAnswer(answers[1..][k].answer);
        assert answers[k + 1].request == i;
      }
    }
  }

  lemma {:induction false} JobsOfAnswered(answers: seq<Answered>, k: nat)
    requires k < |answers| && forall j, l :: 0 <= j < l < |answers| ==> answers[j].request != answers[l].request
    ensures JobsOf(Queue(answers), answers[k].request) == JobsOfAnswer(answers[k].answer)
  {
    hide JobsOfAnswer;
    assert Queue(answers)[1..] == Queue(answers[1..]);
    if k > 0 {
      assert answers[1..][k - 1] == answers[k];
      JobsOfAnswered(answers[1..], k - 1);
    }
  }

  lemma QueueIsChains(requests: seq<Request>, answers: seq<Answered>)
    requires AreUnanswered(requests, answers)
    ensures AreChains(requests, Queue(answers))
  {
    hide IsRestOfChain;
    forall k | 0 <= k < |answers| ensures IsChainOf(requests, Queue(answers)[k]) {
      CaughtByDelay(answers[k].answer);
    }
  }

  /**
   With an instant grace sleep the checks throw if and only if the `send` of some request still unanswered at
   the abort resolves one or two microtasks later, or rejects one microtask later. Requests that never settle
   do not matter.
   */
  lemma ReportByDelays(c: Config, drainTimeout: nat, answers: seq<Answered>, w: World)
    requires S.Invariant(c, w) && w.stage.Aborting? && !HasCounted(w.ticks.requests)
    requires AreUnanswered(w.ticks.requests, answers)
    ensures var stage := RunQueue(c, drainTimeout, Queue(answers) + [Stopper(3)], w).stage;
            && stage.Reported?
            && stage.error ==
               if exists k :: 0 <= k < |answers| && IsLate(answers[k].answer) then Some(Terminal) else None
  {
    var requests := w.ticks.requests;
    QueueIsChains(requests, answers);
    ReportOfQueue(c, drainTimeout, Queue(answers), w);
    hide S.Invariant, AreChains, RunQueue, PhaseAfter, JobsOf, JobsOfAnswer, Queue;
    if k :| 0 <= k < |answers| && IsLate(answers[k].answer) {
      JobsOfAnswered(answers, k);
      CaughtByDelay(answers[k].answer);
      assert IsCaught(requests[answers[k].request], JobsOf(Queue(answers), answers[k].request));
    } else {
      forall i | 0 <= i < |requests| ensures !IsCaught(requests[i], JobsOf(Queue(answers), i)) {
        NotCaught(answers, requests, i);
      }
    }
  }

  lemma NotCaught(answers: seq<Answered>, requests: seq<Request>, i: nat)
    requires i < |requests| && !HasCounted(requests) && AreUnanswered(requests, answers)
    requires forall k :: 0 <= k < |answers| ==> !IsLate(answers[k].answer)
    ensures !IsCaught(requests[i], JobsOf(Queue(answers), i))
  {
    hide JobsOf, JobsOfAnswer, Queue, IsRestOfChain;
    JobsOfQueue(answers, i);
    var jobs := JobsOf(Queue(answers), i);
    if jobs == [] {
      assert requests[i] in requests;
    } else {
      hide PhaseAfter;
      var k :| 0 <= k < |answers| && answers[k].request == i && jobs == JobsOfAnswer(answers[k].answer);
      CaughtByDelay(answers[k].answer);
    }
  }

  // ---------------------------------------------------------------- the queue takes steps of stop

  lemma PerformIsRun(c: Config, drainTimeout: nat, w: World, e: StopEvent) returns (events: seq<StopEvent>)
    requires IsConfig(c)
    ensures S.IsRun(c, drainTimeout, w, events) &&
      S.AfterRun(c, drainTimeout, w, events) == Perform(c, drainTimeout, w, e)
  {
    hide S.Next, S.Enabled;
    if S.Enabled(w, e) {
      events := [e];
      assert events[1..] == [];
      assert S.IsRun(c, drainTimeout, S.Next(c, drainTimeout, w, e), events[1..]);
    } else {
      events := [];
    }
  }

  /** Running the queue takes a run of the steps of SchedulerStop. */
  lemma {:induction false} QueueIsRun(c: Config, drainTimeout: nat, queue: seq<Task>,
                                      w: World) returns (events: seq<StopEvent>)
    requires IsConfig(c)
    ensures S.IsRun(c, drainTimeout, w, events) &&
      S.AfterRun(c, drainTimeout, w, events) == RunQueue(c, drainTimeout, queue, w)
    decreases Work(queue)
  {
    hide Perform, S.IsRun, S.AfterRun;
    events := NoEvents(c, drainTimeout, w);
    if queue != [] && !w.stage.Reported? {
      WorkAppend(queue[1..], Rest(queue[0]));
      var first := TaskIsRun(c, drainTimeout, queue[0], w);
      var others := QueueIsRun(c, drainTimeout, queue[1..] + Rest(queue[0]), S.AfterRun(c, drainTimeout, w, first));
      RunsCompose(c, drainTimeout, w, first, others);
      events := first + others;
    }
  }

  lemma NoEvents(c: Config, drainTimeout: nat, w: World) returns (events: seq<StopEvent>)
    requires IsConfig(c)
    ensures S.IsRun(c, drainTimeout, w, events) && S.AfterRun(c, drainTimeout, w, events) == w
  {
    events := [];
  }

  lemma TaskIsRun(c: Config, drainTimeout: nat, task: Task, w: World) returns (events: seq<StopEvent>)
    requires IsConfig(c)
    ensures S.IsRun(c, drainTimeout, w, events)
    ensures S.AfterRun(c, drainTimeout, w, events) ==
              match task
              case Chain(i, jobs) => if jobs == [] then w else RunJob(c, drainTimeout, w, i, jobs[0])
              case Stopper(left) => RunStopJob(c, drainTimeout, w, left)
  {
    hide Perform, S.IsRun, S.AfterRun;
    events := NoEvents(c, drainTimeout, w);
    match task
    case Chain(i, jobs) =>
      if jobs != [] && jobs[0].Count? {
        events := PerformIsRun(c, drainTimeout, w, Ticking(Completes(i, jobs[0].kind)));
      } else if jobs != [] && jobs[0].Remove? {
        events := PerformIsRun(c, drainTimeout, w, Ticking(IsRemoved(i)));
      }
    case Stopper(left) =>
      events := PerformIsRun(c, drainTimeout, w,
        if left == 3 then RaceBuilt
        else if left == 2 then (if w.stage.Racing? && w.stage.awaited == {} then AllHaveSettled else GraceSleepEnds)
        else Report);
  }

  /** A request is sent, stop is called, and the drain times out: stop aborts. */
  lemma ReachAbort(c: Config, drainTimeout: nat) returns (events: seq<StopEvent>)
    requires IsConfig(c) && c.maximumInFlight > 0
    ensures S.IsRun(c, drainTimeout, Start(c), events)
    ensures var w := S.AfterRun(c, drainTimeout, Start(c), events); w.stage.Aborting? && w.ticks.requests == [Sent]
  {
    var e0, e1, e2 := Ticking(Tick(c.start, c.start)), Ticking(Stop(c.start)), Ticking(Return);
    var e3, e4 := LoopAwaited(c.start), DrainChecked(c.start + drainTimeout);
    var w1 := S.Next(c, drainTimeout, Start(c), e0);
    assert w1.ticks.requests == [Sent];
    var w2 := S.Next(c, drainTimeout, w1, e1);
    var w3 := S.Next(c, drainTimeout, w2, e2);
    assert w3.ticks.requests == [Sent];
    var w4 := S.Next(c, drainTimeout, w3, e3);
    assert InFlight([Sent]) == 1 by { assert [Sent][1..] == []; }
    var w5 := S.Next(c, drainTimeout, w4, e4);
    assert w5.stage.Aborting?;
    hide S.Next, S.Enabled;
    OneEvent(c, drainTimeout, Start(c), e0);
    OneEvent(c, drainTimeout, w1, e1);
    OneEvent(c, drainTimeout, w2, e2);
    OneEvent(c, drainTimeout, w3, e3);
    OneEvent(c, drainTimeout, w4, e4);
    hide S.IsRun, S.AfterRun;
    RunsCompose(c, drainTimeout, Start(c), [e0], [e1]);
    RunsCompose(c, drainTimeout, Start(c), [e0] + [e1], [e2]);
    RunsCompose(c, drainTimeout, Start(c), [e0] + [e1] + [e2], [e3]);
    RunsCompose(c, drainTimeout, Start(c), [e0] + [e1] + [e2] + [e3], [e4]);
    events := [e0] + [e1] + [e2] + [e3] + [e4];
  }

  lemma OneEvent(c: Config, drainTimeout: nat, w: World, e: StopEvent)
    requires IsConfig(c) && S.Enabled(w, e)
    ensures S.IsRun(c, drainTimeout, w, [e]) && S.AfterRun(c, drainTimeout, w, [e]) == S.Next(c, drainTimeout, w, e)
  {
    hide S.Next, S.Enabled;
    assert [e][1..] == [];
    assert S.IsRun(c, drainTimeout, S.Next(c, drainTimeout, w, e), []);
  }

  /**
   A run of the whole scheduler whose report throws: one request, a drain that times out, an instant grace
   sleep, and a `send` that answers the abort one microtask later.
   */
  lemma TerminalCheckCanThrow(c: Config, drainTimeout: nat) returns (events: seq<StopEvent>)
    requires IsConfig(c) && c.maximumInFlight > 0
    ensures S.IsRun(c, drainTimeout, Start(c), events)
    ensures var stage := S.AfterRun(c, drainTimeout, Start(c), events).stage;
            stage.Reported? && stage.error == Some(Terminal)
  {
    var first := ReachAbort(c, drainTimeout);
    var w := S.AfterRun(c, drainTimeout, Start(c), first);
    S.RunKeepsInvariant(c, drainTimeout, Start(c), first);
    var answers := [Answered(0, Resolves(1, Timeout))];
    hide S.IsRun, S.AfterRun, RunQueue, S.Invariant;
    assert IsLate(answers[0].answer);
    ReportByDelays(c, drainTimeout, answers, w);
    var others := QueueIsRun(c, drainTimeout, Queue(answers) + [Stopper(3)], w);
    RunsCompose(c, drainTimeout, Start(c), first, others);
    events := first + others;
  }
}
