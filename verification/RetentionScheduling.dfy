/**
 The scheduling of src/modules/retention/retention-service.ts as a state and its steps. A run is a promise
 chain: it is begun, one microtask later its body executes, and at last its `finally` runs. The host's
 timer may refuse to schedule or to cancel, and what it holds then may still call back.
 */
module RetentionScheduling {
  import opened Prelude

  datatype RunPhase = Begun | Executing | Ended

  datatype Run = Run(phase: RunPhase, aborted: bool)

  /** `timer.schedule` returned, or threw and kept the callback or not. */
  datatype Scheduling = Armed | ScheduleThrew(kept: bool)

  /** `timer.cancel` returned, or threw and kept the callback or not. */
  datatype Cancelling = Cancelled | CancelThrew(kept: bool)

  /** The promise of `stop`: it awaits the run that was active when it was called. */
  datatype StopPromise = NotCalled | Awaiting(run: Option<nat>, failed: bool) | StopSettled(failed: bool)

  datatype State = State(
    started: bool,
    stopping: bool,
    timerScheduled: bool,
    activeController: Option<nat>,
    activeRun: Option<nat>,
    stopPromise: StopPromise,
    runs: seq<Run>,            // every run ever begun, in order
    armed: nat,                // callbacks the host's timer holds
    scheduleThrew: bool)       // whether `timer.schedule` has ever thrown

  const INITIAL := State(false, false, false, None, None, NotCalled, [], 0, false)

  // ---------------------------------------------------------------- steps

  function ScheduleNext(s: State, scheduling: Scheduling): State {
    if s.stopping || s.timerScheduled then s
    else match scheduling
    case Armed => s.(armed := s.armed + 1, timerScheduled := true)
    case ScheduleThrew(kept) => s.(armed := if kept then s.armed + 1 else s.armed, scheduleThrew := true)
  }

  function BeginRun(s: State): State {
    if s.stopping || s.activeRun.Some? then s
    else s.(runs := s.runs + [Run(Begun, false)], activeController := Some(|s.runs|), activeRun := Some(|s.runs|))
  }

  function StartStep(s: State): State {
    if s.started || s.stopping then s else BeginRun(s.(started := true))
  }

  function TimerStep(s: State): State
    requires s.armed > 0
  {
    BeginRun(s.(armed := s.armed - 1, timerScheduled := false))
  }

  function ExecuteStep(s: State, i: nat): State
    requires i < |s.runs|
  {
    s.(runs := s.runs[i := s.runs[i].(phase := Executing)])
  }

  /** The `finally` of executeRun, whatever the run came to. */
  function EndStep(s: State, i: nat, scheduling: Scheduling): State
    requires i < |s.runs|
  {
    ScheduleNext(s.(runs := s.runs[i := s.runs[i].(phase := Ended)], activeController := None, activeRun := None),
      scheduling)
  }

  function CancelTimer(s: State, cancelling: Cancelling): State {
    if !s.timerScheduled then s
    else s.(timerScheduled := false,
            armed := if s.armed > 0 && (cancelling.Cancelled? || !cancelling.kept) then s.armed - 1 else s.armed)
  }

  function Abort(s: State): State {
    if s.activeController.Some? && s.activeController.value < |s.runs|
    then s.(runs := s.runs[s.activeController.value := s.runs[s.activeController.value].(aborted := true)])
    else s
  }

  function StopStep(s: State, cancelling: Cancelling): State {
    if !s.stopPromise.NotCalled? then s else
    var t := Abort(CancelTimer(s.(stopping := true), cancelling));
    t.(stopPromise := Awaiting(t.activeRun, s.timerScheduled && cancelling.CancelThrew?))
  }

  function StopSettlesStep(s: State): State
    requires s.stopPromise.Awaiting?
  {
    s.(stopPromise := StopSettled(s.stopPromise.failed))
  }

  datatype Event =
    | Start
    | TimerFires
    | RunExecutes(run: nat)
    | RunEnds(run: nat, scheduling: Scheduling)
    | Stop(cancelling: Cancelling)
    | StopSettles

  predicate IsInPhase(s: State, i: nat, phase: RunPhase) {
    i < |s.runs| && s.runs[i].phase == phase
  }

  predicate Enabled(s: State, e: Event) {
    match e
    case Start => true
    case TimerFires => s.armed > 0
    case RunExecutes(i) => IsInPhase(s, i, Begun)
    case RunEnds(i, _) => IsInPhase(s, i, Executing)
    case Stop(_) => true
    case StopSettles =>
      s.stopPromise.Awaiting? && (s.stopPromise.run.Some? ==> IsInPhase(s, s.stopPromise.run.value, Ended))
  }

  function Next(s: State, e: Event): State
    requires Enabled(s, e)
  {
    match e
    case Start => StartStep(s)
    case TimerFires => TimerStep(s)
    case RunExecutes(i) => ExecuteStep(s, i)
    case RunEnds(i, scheduling) => EndStep(s, i, scheduling)
    case Stop(cancelling) => StopStep(s, cancelling)
    case StopSettles => StopSettlesStep(s)
  }

  // ---------------------------------------------------------------- what holds between events

  /** The active run is the one run that has not ended. */
  ghost predicate ActiveInvariant(s: State) {
    && (s.activeRun.Some? ==> s.activeRun.value < |s.runs|)
    && (forall i :: 0 <= i < |s.runs| ==> (!s.runs[i].phase.Ended? <==> s.activeRun == Some(i)))
    && s.activeController == s.activeRun
  }

  /** Before a stop: a timer or an active run or neither, and exactly one of them if no scheduling threw. */
  ghost predicate DriverInvariant(s: State) {
    && (s.timerScheduled ==> s.armed == 1 && !s.stopping)
    && s.armed <= 1
    && (!s.stopping && s.armed == 1 ==> s.activeRun.None?)
    && (!s.started ==> s.runs == [] && s.armed == 0)
    && (s.started && !s.stopping && !s.scheduleThrew ==> (s.timerScheduled <==> s.activeRun.None?))
    && (!s.scheduleThrew && !s.stopping && s.armed > 0 ==> s.timerScheduled)
  }

  /** A started service between two runs whose host holds no callback. */
  ghost predicate IsIdle(s: State) {
    s.started && s.activeRun.None? && s.armed == 0 && !s.timerScheduled
  }

  ghost predicate StopInvariant(s: State) {
    && (s.stopping <==> !s.stopPromise.NotCalled?)
    && (s.stopPromise.Awaiting? ==>
          && (s.stopPromise.run.Some? ==> s.stopPromise.run.value < |s.runs|)
          && (s.activeRun.Some? ==> s.activeRun == s.stopPromise.run && s.runs[s.activeRun.value].aborted))
    && (s.stopPromise.StopSettled? ==> s.activeRun.None?)
    && (!s.scheduleThrew && !s.stopPromise.NotCalled? && !s.stopPromise.failed ==> s.armed == 0)
  }

  ghost predicate Invariant(s: State) {
    ActiveInvariant(s) && DriverInvariant(s) && StopInvariant(s)
  }

  lemma NextKeepsInvariant(s: State, e: Event)
    requires Invariant(s) && Enabled(s, e)
    ensures Invariant(Next(s, e))
  {
  }

  /** No two runs are ever in progress together. */
  lemma AtMostOneRun(s: State, i: nat, j: nat)
    requires Invariant(s) && i < |s.runs| && j < |s.runs|
    requires !s.runs[i].phase.Ended? && !s.runs[j].phase.Ended?
    ensures i == j
  {
  }

  // ---------------------------------------------------------------- whole runs

  ghost predicate IsRun(s: State, events: seq<Event>)
    decreases |events|
  {
    events == [] || (Enabled(s, events[0]) && IsRun(Next(s, events[0]), events[1..]))
  }

  ghost function AfterRun(s: State, events: seq<Event>): State
    requires IsRun(s, events)
    decreases |events|
  {
    if events == [] then s else AfterRun(Next(s, events[0]), events[1..])
  }

  /**
   After any history of the service: at most one run is in progress, and while it is started, not
   stopping and no scheduling has thrown, it has either its timer set or a run in progress, never both.
   */
  lemma {:induction false} EveryHistoryIsGood(s: State, events: seq<Event>)
    requires Invariant(s) && IsRun(s, events)
    ensures var after := AfterRun(s, events);
            && Invariant(after)
            && (forall i, j :: 0 <= i < j < |after.runs| ==> after.runs[i].phase.Ended? || after.runs[j].phase.Ended?)
            && (after.started && !after.stopping && !after.scheduleThrew ==>
                  (after.armed == 1 && after.timerScheduled) != after.activeRun.Some?)
    decreases |events|
  {
    hide Next, Enabled;
    if events == [] {
    } else {
      NextKeepsInvariant(s, events[0]);
      EveryHistoryIsGood(Next(s, events[0]), events[1..]);
    }
  }

  /**
   Once stop has settled no run is in progress, and none begins or executes ever again. If no call of the
   timer threw, the host holds no callback either.
   */
  lemma {:induction false} StoppedForGood(s: State, events: seq<Event>)
    requires Invariant(s) && s.stopPromise.StopSettled? && IsRun(s, events)
    ensures var after := AfterRun(s, events);
            && after.stopPromise.StopSettled? && after.runs == s.runs
            && (forall i :: 0 <= i < |after.runs| ==> after.runs[i].phase.Ended?)
            && (!s.scheduleThrew && !s.stopPromise.failed ==> after.armed == 0)
    decreases |events|
  {
    if events != [] {
      NextKeepsInvariant(s, events[0]);
      var t := Next(s, events[0]);
      assert t.runs == s.runs && t.stopPromise == s.stopPromise && t.scheduleThrew == s.scheduleThrew;
      hide Invariant, Next, Enabled;
      StoppedForGood(Next(s, events[0]), events[1..]);
    } else {
      assert s.activeRun.None?;
    }
  }

  /** From the call of stop on no run begins, and the one in progress has been told to abort. */
  lemma StoppingBeginsNothing(s: State, e: Event)
    requires Invariant(s) && s.stopping && Enabled(s, e)
    ensures Next(s, e).stopping && |Next(s, e).runs| == |s.runs|
    ensures s.activeRun.Some? ==> s.runs[s.activeRun.value].aborted
  {
  }

  /** What is left to happen before a called stop settles. */
  function StopRank(s: State): nat {
    match s.stopPromise
    case NotCalled => 4
    case Awaiting(_, _) =>
      if s.activeRun.None? || s.activeRun.value >= |s.runs| || s.runs[s.activeRun.value].phase.Ended? then 1
      else if s.runs[s.activeRun.value].phase.Executing? then 2 else 3
    case StopSettled(_) => 0
  }

  /** A called stop is never stuck: some step of the run or of stop itself is possible, and lowers the rank. */
  lemma StopIsNeverStuck(s: State, scheduling: Scheduling) returns (e: Event)
    requires Invariant(s) && s.stopPromise.Awaiting?
    ensures Enabled(s, e) && StopRank(Next(s, e)) < StopRank(s)
  {
    if s.activeRun.None? {
      e := StopSettles;
    } else {
      var i := s.activeRun.value;
      e := if s.runs[i].phase.Begun? then RunExecutes(i) else RunEnds(i, scheduling);
    }
  }

  /** No event raises it again. */
  lemma StopNeverMovesBack(s: State, e: Event)
    requires Invariant(s) && s.stopping && Enabled(s, e)
    ensures StopRank(Next(s, e)) <= StopRank(s)
  {
  }

  /**
   A schedule call that threw and kept nothing ends retention: the service stays started, with neither
   timer nor run, and nothing, not even another start, ever begins a run again.
   */
  lemma {:induction false} LostScheduleIsFinal(s: State, events: seq<Event>)
    requires Invariant(s) && s.started && s.armed == 0 && s.activeRun.None? && IsRun(s, events)
    ensures AfterRun(s, events).runs == s.runs
    decreases |events|
  {
    if events != [] {
      NextKeepsInvariant(s, events[0]);
      var t := Next(s, events[0]);
      assert t.started && t.armed == 0 && t.activeRun.None? && t.runs == s.runs;
      hide Invariant, Next, Enabled;
      LostScheduleIsFinal(t, events[1..]);
    }
  }

  /** Started, not stopping, and with neither a callback nor a run: the state LostScheduleIsFinal is about. */
  predicate IsLost(s: State) {
    s.started && !s.stopping && s.armed == 0 && s.activeRun.None?
  }

  /** A schedule call that threw and kept nothing. */
  predicate LosesSchedule(e: Event) {
    e.RunEnds? && e.scheduling == ScheduleThrew(false)
  }

  lemma OnlyLosingEventsLose(s: State, e: Event)
    requires Invariant(s) && Enabled(s, e)
    ensures !Next(s, e).stopping ==> (IsLost(Next(s, e)) <==> IsLost(s) || LosesSchedule(e))
  {
    if e.RunEnds? {
      assert !s.runs[e.run].phase.Ended?;
    }
  }

  /** Over any history without a stop the service is lost exactly if it was before or an event lost it. */
  lemma {:induction false} LostIffAnEventLost(s: State, events: seq<Event>)
    requires Invariant(s) && IsRun(s, events) && !AfterRun(s, events).stopping
    ensures !s.stopping && Invariant(AfterRun(s, events))
    ensures IsLost(AfterRun(s, events)) <==> IsLost(s) || exists k :: 0 <= k < |events| && LosesSchedule(events[k])
    decreases |events|
  {
    if events == [] {
    } else {
      NextKeepsInvariant(s, events[0]);
      OnlyLosingEventsLose(s, events[0]);
      assert s.stopping ==> Next(s, events[0]).stopping;
      hide Invariant, Next, Enabled, IsLost, LosesSchedule;
      LostIffAnEventLost(Next(s, events[0]), events[1..]);
      assert events == [events[0]] + events[1..];
      assert forall k :: 0 <= k < |events[1..]| ==> events[1..][k] == events[k + 1];
      SplitLoss(events);
    }
  }

  lemma SplitLoss(events: seq<Event>)
    requires events != []
    ensures (exists k :: 0 <= k < |events| && LosesSchedule(events[k]))
       <==> LosesSchedule(events[0]) || exists k :: 0 <= k < |events[1..]| && LosesSchedule(events[1..][k])
  {
    hide LosesSchedule;
    if k :| 0 <= k < |events[1..]| && LosesSchedule(events[1..][k]) {
      assert events[k + 1] == events[1..][k];
    }
    if k :| 1 <= k < |events| && LosesSchedule(events[k]) {
      assert events[1..][k - 1] == events[k];
    }
  }

  /**
   In every history of a service that is started and not stopping, the host holds its callback or a run is in
   progress, one of the two and not both, if and only if no schedule call has thrown without keeping the
   callback. A throw that kept it does no harm.
   */
  lemma DriverIsLostIff(events: seq<Event>)
    requires IsRun(INITIAL, events)
    requires AfterRun(INITIAL, events).started && !AfterRun(INITIAL, events).stopping
    ensures var s := AfterRun(INITIAL, events);
            (s.armed == 1) != s.activeRun.Some? <==> !exists k :: 0 <= k < |events| && LosesSchedule(events[k])
  {
    LostIffAnEventLost(INITIAL, events);
    hide IsRun, AfterRun, LosesSchedule;
  }

  // ---------------------------------------------------------------- what drives the service on

  /** The first start begins the first run. */
  lemma StartBeginsRun(s: State)
    requires Invariant(s) && !s.started && !s.stopping
    ensures var t := StartStep(s);
            && t.started && t.runs == s.runs + [Run(Begun, false)] && t.activeRun == Some(|s.runs|) && t.armed == 0
            && Enabled(s, Start) && Next(s, Start) == t
  {
  }

  /**
   A started service that has not lost its schedule goes on without further calls: the run in progress executes and
   ends, the timer is set and fires, and the next run begins.
   */
  lemma NextRunBegins(s: State) returns (events: seq<Event>)
    requires Invariant(s) && s.started && !s.stopping && !IsLost(s)
    ensures |events| <= 3 && (forall e :: e in events ==> e.TimerFires? || e.RunExecutes? || e.RunEnds?)
    ensures IsRun(s, events)
    ensures var t := AfterRun(s, events);
            && |t.runs| == |s.runs| + 1 && t.activeRun == Some(|s.runs|)
            && forall i :: 0 <= i < |s.runs| ==> t.runs[i].phase.Ended? && t.runs[i].aborted == s.runs[i].aborted
  {
    if s.activeRun.None? {
      events := [TimerFires];
      OneEvent(s, TimerFires);
    } else {
      var i := s.activeRun.value;
      events := [RunEnds(i, Armed), TimerFires];
      var t := s;
      if s.runs[i].phase.Begun? {
        t := Next(s, RunExecutes(i));
        NextKeepsInvariant(s, RunExecutes(i));
      }
      var ended := Next(t, RunEnds(i, Armed));
      NextKeepsInvariant(t, RunEnds(i, Armed));
      OneEvent(ended, TimerFires);
      Prepend(t, RunEnds(i, Armed), [TimerFires]);
      if s.runs[i].phase.Begun? {
        Prepend(s, RunExecutes(i), events);
        events := [RunExecutes(i)] + events;
      }
    }
  }

  lemma OneEvent(s: State, e: Event)
    requires Enabled(s, e)
    ensures IsRun(s, [e]) && AfterRun(s, [e]) == Next(s, e)
  {
    assert [e][1..] == [];
    assert AfterRun(Next(s, e), []) == Next(s, e);
  }

  lemma Prepend(s: State, e: Event, events: seq<Event>)
    requires Enabled(s, e) && IsRun(Next(s, e), events)
    ensures IsRun(s, [e] + events) && AfterRun(s, [e] + events) == AfterRun(Next(s, e), events)
  {
    assert ([e] + events)[0] == e && ([e] + events)[1..] == events;
  }

  /**
   What the first stop does: it takes back the callback of a set timer, unless the host threw and kept it, and no
   other; it tells the run in progress to abort, waits for that run, and fails exactly if taking back threw.
   */
  lemma StopTakesBack(s: State, cancelling: Cancelling)
    requires Invariant(s) && !s.stopping
    ensures var t := StopStep(s, cancelling);
            && Enabled(s, Stop(cancelling)) && Next(s, Stop(cancelling)) == t
            && t.stopping && !t.timerScheduled
            && t.armed == (if s.timerScheduled && (cancelling.Cancelled? || !cancelling.kept) then 0 else s.armed)
            && t.stopPromise == Awaiting(s.activeRun, s.timerScheduled && cancelling.CancelThrew?)
            && |t.runs| == |s.runs|
            && forall i :: 0 <= i < |s.runs| ==>
                 t.runs[i] == s.runs[i].(aborted := s.runs[i].aborted || s.activeRun == Some(i))
  {
  }
}
