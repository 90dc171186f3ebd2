/**
 `stop` of tools/loadgen/aggregation.ts, from its call to the accounting checks: it awaits the scheduling
 loop, drains the requests in flight, aborts what is left when the drain times out, and then waits for all of
 them or for a grace sleep, whichever is first, before it reads the counters.
 */
module SchedulerStop {
  import opened Prelude
  import opened TickScheduling

  /** What let `stop` go on to read the counters. */
  datatype Winner = DrainEmptied | AllSettled | GraceSleep

  datatype Stage =
    | Running
    | AwaitingLoop
    | Draining(started: int)
    | Aborting                                  // the controllers are aborted; one microtask to the race
    | Racing(awaited: set<nat>)                 // the requests in flight when the race was built
    | Raced(winner: Winner)
    | Reported(winner: Winner, error: Option<AccountingError>)

  datatype World = World(ticks: State, stage: Stage)

  function Start(c: Config): World {
    World(Initial(c), Running)
  }

  datatype StopEvent =
    | Ticking(e: Event)          // of the loop, of a request or of the call of stop
    | LoopAwaited(now: int)
    | DrainChecked(now: int)     // the condition of the drain loop, on entry and after every sleep
    | DrainSleepRejected         // an external abort breaks the drain loop
    | RaceBuilt
    | AllHaveSettled             // `allSettled` is first
    | GraceSleepEnds             // or the grace sleep is
    | Report

  function AwaitedRequests(requests: seq<Request>): set<nat> {
    set i: nat | i < |requests| && !requests[i].Removed?
  }

  predicate Enabled(w: World, e: StopEvent) {
    match e
    case Ticking(t) => TickScheduling.Enabled(w.ticks, t)
    case LoopAwaited(now) => w.stage.AwaitingLoop? && !w.ticks.looping
    case DrainChecked(now) => w.stage.Draining? && w.stage.started <= now
    case DrainSleepRejected => w.stage.Draining? && w.ticks.aborted
    case RaceBuilt => w.stage.Aborting?
    case AllHaveSettled =>
      && w.stage.Racing?
      && forall i :: i in w.stage.awaited && i < |w.ticks.requests| ==> w.ticks.requests[i].Removed?
    case GraceSleepEnds => w.stage.Racing?
    case Report => w.stage.Raced?
  }

  function ReportStep(w: World, winner: Winner): World {
    w.(stage := Reported(winner, CheckCounters(w.ticks.counters, InFlight(w.ticks.requests))))
  }

  /** Behind the drain loop: report at once if nothing is in flight, abort otherwise. */
  function AfterDrain(w: World): World {
    if InFlight(w.ticks.requests) == 0 then ReportStep(w, DrainEmptied) else w.(stage := Aborting)
  }

  function Next(c: Config, drainTimeout: nat, w: World, e: StopEvent): World
    requires IsConfig(c) && Enabled(w, e)
  {
    match e
    case Ticking(t) =>
      w.(ticks := TickScheduling.Next(c, w.ticks, t), stage := if t.Stop? then AwaitingLoop else w.stage)
    case LoopAwaited(now) => w.(stage := Draining(now))
    case DrainChecked(now) =>
      if InFlight(w.ticks.requests) > 0 && now - w.stage.started < drainTimeout then w else AfterDrain(w)
    case DrainSleepRejected => AfterDrain(w)
    case RaceBuilt => w.(stage := Racing(AwaitedRequests(w.ticks.requests)))
    case AllHaveSettled => w.(stage := Raced(AllSettled))
    case GraceSleepEnds => w.(stage := Raced(GraceSleep))
    case Report => ReportStep(w, w.stage.winner)
  }

  // ---------------------------------------------------------------- what every state satisfies

  predicate NothingInFlight(requests: seq<Request>) {
    forall i :: 0 <= i < |requests| ==> requests[i].Removed?
  }

  ghost predicate StageFits(w: World) {
    && (w.stage.Running? <==> w.ticks.stopCall.None?)
    && (!w.stage.Running? && !w.stage.AwaitingLoop? ==> !w.ticks.looping)
    && (w.stage.Racing? ==> AwaitedRequests(w.ticks.requests) <= w.stage.awaited)
    && (w.stage.Raced? && !w.stage.winner.GraceSleep? ==> NothingInFlight(w.ticks.requests))
    && (w.stage.Reported? && !w.stage.winner.GraceSleep? ==> w.stage.error.None?)
  }

  ghost predicate Invariant(c: Config, w: World) {
    TickScheduling.Invariant(c, w.ticks) && StageFits(w)
  }

  lemma {:induction false} InFlightZero(requests: seq<Request>)
    ensures InFlight(requests) == 0 <==> NothingInFlight(requests)
  {
    if requests != [] {
      InFlightZero(requests[1..]);
      assert requests == [requests[0]] + requests[1..];
    }
  }

  /** A report with nothing in flight has nothing to complain about. */
  lemma EmptyReportPasses(c: Config, s: State)
    requires TickScheduling.Invariant(c, s) && NothingInFlight(s.requests)
    ensures CheckCounters(s.counters, InFlight(s.requests)) == None
  {
    hide InFlight;
    ChecksOfState(c, s);
  }

  lemma TickingKeeps(c: Config, drainTimeout: nat, w: World, t: Event)
    requires Invariant(c, w) && TickScheduling.Enabled(w.ticks, t)
    ensures Invariant(c, Next(c, drainTimeout, w, Ticking(t)))
  {
    TickScheduling.NextKeepsInvariant(c, w.ticks, t);
    hide TickScheduling.Invariant, TickStep, ReturnStep;
  }

  lemma NextKeepsInvariant(c: Config, drainTimeout: nat, w: World, e: StopEvent)
    requires Invariant(c, w) && Enabled(w, e)
    ensures Invariant(c, Next(c, drainTimeout, w, e))
  {
    if e.Ticking? {
      TickingKeeps(c, drainTimeout, w, e.e);
    } else {
      InFlightZero(w.ticks.requests);
      if NothingInFlight(w.ticks.requests) {
        EmptyReportPasses(c, w.ticks);
      }
      hide TickScheduling.Invariant, InFlight, CheckCounters;
    }
  }

  // ---------------------------------------------------------------- whole runs

  ghost predicate IsRun(c: Config, drainTimeout: nat, w: World, events: seq<StopEvent>)
    requires IsConfig(c)
    decreases |events|
  {
    events == [] || (Enabled(w, events[0]) && IsRun(c, drainTimeout, Next(c, drainTimeout, w, events[0]), events[1..]))
  }

  ghost function AfterRun(c: Config, drainTimeout: nat, w: World, events: seq<StopEvent>): World
    requires IsConfig(c) && IsRun(c, drainTimeout, w, events)
    decreases |events|
  {
    if events == [] then w else AfterRun(c, drainTimeout, Next(c, drainTimeout, w, events[0]), events[1..])
  }

  lemma {:induction false} RunKeepsInvariant(c: Config, drainTimeout: nat, w: World, events: seq<StopEvent>)
    requires Invariant(c, w) && IsRun(c, drainTimeout, w, events)
    ensures Invariant(c, AfterRun(c, drainTimeout, w, events))
    decreases |events|
  {
    if events == [] {
    } else {
      hide Invariant, Next, Enabled;
      NextKeepsInvariant(c, drainTimeout, w, events[0]);
      assert IsConfig(c);
      RunKeepsInvariant(c, drainTimeout, Next(c, drainTimeout, w, events[0]), events[1..]);
    }
  }

  /** In every run the checks pass when the drain emptied the set or all aborted requests settled in time. */
  lemma ReportPassesUnlessGraceSleepWins(c: Config, drainTimeout: nat, events: seq<StopEvent>)
    requires IsConfig(c) && IsRun(c, drainTimeout, Start(c), events)
    requires var stage := AfterRun(c, drainTimeout, Start(c), events).stage;
             stage.Reported? && !stage.winner.GraceSleep?
    ensures AfterRun(c, drainTimeout, Start(c), events).stage.error == None
  {
    RunKeepsInvariant(c, drainTimeout, Start(c), events);
  }

  /**
   After the grace sleep the checks throw if and only if the outcome of a request has been counted that has
   not left the in-flight set yet, and then it is the terminal check that throws.
   */
  lemma ReportAfterGraceSleep(c: Config, drainTimeout: nat, events: seq<StopEvent>)
    requires IsConfig(c) && IsRun(c, drainTimeout, Start(c), events)
    requires AfterRun(c, drainTimeout, Start(c), events).stage == Raced(GraceSleep)
    ensures var w := AfterRun(c, drainTimeout, Start(c), events);
            && Enabled(w, Report)
            && Next(c, drainTimeout, w, Report).stage ==
                 Reported(GraceSleep, if HasCounted(w.ticks.requests) then Some(Terminal) else None)
  {
    RunKeepsInvariant(c, drainTimeout, Start(c), events);
    hide IsRun, AfterRun, InFlight;
    ChecksOfState(c, AfterRun(c, drainTimeout, Start(c), events).ticks);
  }

  lemma {:induction false} RunsCompose(c: Config, drainTimeout: nat, w: World, a: seq<StopEvent>, b: seq<StopEvent>)
    requires IsConfig(c) && IsRun(c, drainTimeout, w, a) && IsRun(c, drainTimeout, AfterRun(c, drainTimeout, w, a), b)
    ensures IsRun(c, drainTimeout, w, a + b)
    ensures AfterRun(c, drainTimeout, w, a + b) == AfterRun(c, drainTimeout, AfterRun(c, drainTimeout, w, a), b)
    decreases |a|
  {
    hide Next, Enabled;
    if a == [] {
      assert a + b == b;
    } else {
      RunsCompose(c, drainTimeout, Next(c, drainTimeout, w, a[0]), a[1..], b);
      assert (a + b)[0] == a[0] && (a + b)[1..] == a[1..] + b;
    }
  }

  // ---------------------------------------------------------------- the drain

  /**
   A check of the drain loop reports exactly if no request is in flight, aborts exactly if one is and the timeout
   has passed, and leaves everything as it is otherwise. A rejected sleep leaves the loop at once.
   */
  lemma DrainDecides(c: Config, drainTimeout: nat, w: World, e: StopEvent)
    requires Invariant(c, w) && Enabled(w, e) && (e.DrainChecked? || e.DrainSleepRejected?)
    ensures var t := Next(c, drainTimeout, w, e);
            && (t.stage == Reported(DrainEmptied, None) <==> NothingInFlight(w.ticks.requests))
            && (t.stage.Aborting? <==>
                  && !NothingInFlight(w.ticks.requests)
                  && (e.DrainChecked? ==> w.stage.started + drainTimeout <= e.now))
            && (!t.stage.Reported? && !t.stage.Aborting? ==> t == w)
            && t.ticks == w.ticks
  {
    InFlightZero(w.ticks.requests);
    if NothingInFlight(w.ticks.requests) {
      EmptyReportPasses(c, w.ticks);
    }
    hide TickScheduling.Invariant, InFlight, CheckCounters;
  }

  /** When all aborted requests have left the set, `allSettled` can win, and the report then passes. */
  lemma SettledRaceReports(c: Config, drainTimeout: nat, w: World)
    requires Invariant(c, w) && w.stage.Racing? && NothingInFlight(w.ticks.requests)
    ensures IsRun(c, drainTimeout, w, [AllHaveSettled, Report])
    ensures AfterRun(c, drainTimeout, w, [AllHaveSettled, Report]).stage == Reported(AllSettled, None)
  {
    EmptyReportPasses(c, w.ticks);
    hide TickScheduling.Invariant, InFlight, CheckCounters;
    var events := [AllHaveSettled, Report];
    assert events[1..] == [Report] && [Report][1..] == [];
    var raced := Next(c, drainTimeout, w, AllHaveSettled);
    assert raced.stage == Raced(AllSettled);
    var t := Next(c, drainTimeout, raced, Report);
    assert IsRun(c, drainTimeout, t, []) && AfterRun(c, drainTimeout, t, []) == t;
    assert IsRun(c, drainTimeout, raced, [Report]) && AfterRun(c, drainTimeout, raced, [Report]) == t;
  }

  /** An abort from outside ends the drain loop's sleep, before its timeout too. */
  lemma AbortEndsDrain(w: World)
    requires w.stage.Draining?
    ensures Enabled(w, DrainSleepRejected) <==> w.ticks.aborted
  {
  }

  /** What is left for `stop` to do. */
  function StageRank(w: World): nat {
    match w.stage
    case Running => 8
    case AwaitingLoop => if w.ticks.looping then 7 else 6
    case Draining(_) => 5
    case Aborting => 4
    case Racing(_) => 3
    case Raced(_) => 2
    case Reported(_, _) => 0
  }

  lemma StopIsNeverStuck(c: Config, drainTimeout: nat, w: World) returns (e: StopEvent)
    requires Invariant(c, w) && !w.stage.Running? && !w.stage.Reported?
    ensures Enabled(w, e) && StageRank(Next(c, drainTimeout, w, e)) < StageRank(w)
  {
    hide InFlight, CheckCounters, CountMissed, MissedTicks;
    match w.stage
    case AwaitingLoop => e := if w.ticks.looping then Ticking(TickScheduling.Event.Return) else LoopAwaited(0);
    case Draining(started) => e := DrainChecked(started + drainTimeout);
    case Aborting => e := RaceBuilt;
    case Racing(_) => e := GraceSleepEnds;
    case Raced(_) => e := Report;
  }

  /** Once called, `stop` can be brought to its report from every state, whatever the requests do. */
  lemma {:induction false} StopReports(c: Config, drainTimeout: nat, w: World) returns (events: seq<StopEvent>)
    requires Invariant(c, w) && !w.stage.Running?
    ensures IsRun(c, drainTimeout, w, events) && AfterRun(c, drainTimeout, w, events).stage.Reported?
    decreases StageRank(w)
  {
    assert IsConfig(c);
    if w.stage.Reported? {
      events := [];
    } else {
      var e := StopIsNeverStuck(c, drainTimeout, w);
      NextKeepsInvariant(c, drainTimeout, w, e);
      hide Invariant, Next, Enabled;
      var t := Next(c, drainTimeout, w, e);
      RunningIsFirst(w, t);
      var more := StopReports(c, drainTimeout, t);
      events := [e] + more;
      assert events[1..] == more;
    }
  }

  lemma RunningIsFirst(w: World, t: World)
    requires StageRank(t) < StageRank(w)
    ensures !t.stage.Running?
  {
  }
}
