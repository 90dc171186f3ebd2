/**
 The service object of src/modules/retention/retention-service.ts with its mutable variables; each method
 is proved to take exactly the step of module RetentionScheduling. What the host's timer does is a
 parameter of the methods that call it.
 */
module RetentionService {
  import opened Prelude
  import opened RetentionScheduling

  class Service {
    var started: bool
    var stopping: bool
    var timerScheduled: bool
    var activeController: Option<nat>
    var activeRun: Option<nat>
    var stopPromise: StopPromise

    // The promise chains begun, and what the host's timer holds.
    var runs: seq<Run>
    var armed: nat
    var scheduleThrew: bool

    ghost function Current(): State
      reads this
    {
      State(started, stopping, timerScheduled, activeController, activeRun, stopPromise, runs, armed, scheduleThrew)
    }

    ghost predicate Valid()
      reads this
    {
      Invariant(Current())
    }

    constructor ()
      ensures Valid() && Current() == INITIAL
    {
      started, stopping, timerScheduled := false, false, false;
      activeController, activeRun, stopPromise := None, None, NotCalled;
      runs, armed, scheduleThrew := [], 0, false;
    }

    /**
     Nothing is armed while stopping or behind a timer that is set; between runs, with no callback held,
     the timer is set afterwards unless the host refused.
     */
    method ScheduleNextRun(scheduling: Scheduling)
      modifies `armed, `timerScheduled, `scheduleThrew
      ensures old(stopping || timerScheduled) ==> Current() == old(Current())
      ensures old(IsIdle(Current())) ==> DriverInvariant(Current())
      ensures old(IsIdle(Current())) && !scheduleThrew && !stopping ==> timerScheduled && armed == 1
      ensures Current() == ScheduleNext(old(Current()), scheduling)
    {
      if stopping || timerScheduled {
        return;
      }
      match scheduling {
        case Armed =>
          armed := armed + 1;
          timerScheduled := true;
        case ScheduleThrew(kept) =>
          if kept {
            armed := armed + 1;
          }
          scheduleThrew := true;
      }
    }

    /** Afterwards a run is active unless the service is stopping; a second one is never begun beside it. */
    method Begin()
      modifies `runs, `activeController, `activeRun
      ensures stopping ==> runs == old(runs) && activeRun == old(activeRun)
      ensures old(activeRun).Some? ==> runs == old(runs) && activeRun == old(activeRun)
      ensures !stopping ==> activeRun.Some?
      ensures old(ActiveInvariant(Current())) ==> ActiveInvariant(Current())
      ensures Current() == BeginRun(old(Current()))
    {
      if stopping {
        return;
      }
      if activeRun.Some? {
        return;
      }
      activeController := Some(|runs|);
      activeRun := Some(|runs|);
      runs := runs + [Run(Begun, false)];
    }

    /** The public `start`. */
    method Start()
      requires Valid()
      modifies this
      ensures Valid() && Current() == StartStep(old(Current()))
    {
      NextKeepsInvariant(Current(), RetentionScheduling.Start);
      hide Invariant;
      if started || stopping {
        return;
      }
      started := true;
      Begin();
    }

    /** The timer's callback. */
    method TimerFires()
      requires Valid() && armed > 0
      modifies this
      ensures Valid() && Current() == TimerStep(old(Current()))
    {
      NextKeepsInvariant(Current(), RetentionScheduling.TimerFires);
      hide Invariant;
      armed := armed - 1;
      timerScheduled := false;
      Begin();
    }

    /** The microtask that enters executeRun. */
    method RunExecutes(i: nat)
      requires Valid() && IsInPhase(Current(), i, Begun)
      modifies this
      ensures Valid() && Current() == ExecuteStep(old(Current()), i)
    {
      NextKeepsInvariant(Current(), RetentionScheduling.RunExecutes(i));
      hide Invariant;
      runs := runs[i := runs[i].(phase := Executing)];
    }

    /** The `finally` of executeRun, after success and failure alike. */
    method RunEnds(i: nat, scheduling: Scheduling)
      requires Valid() && IsInPhase(Current(), i, Executing)
      modifies this
      ensures Valid() && Current() == EndStep(old(Current()), i, scheduling)
    {
      NextKeepsInvariant(Current(), RetentionScheduling.RunEnds(i, scheduling));
      hide Invariant;
      runs := runs[i := runs[i].(phase := Ended)];
      activeController := None;
      activeRun := None;
      ScheduleNextRun(scheduling);
    }

    /** The public `stop`, up to its `await activeRun`. */
    method Stop(cancelling: Cancelling)
      requires Valid()
      modifies this
      ensures Valid() && Current() == StopStep(old(Current()), cancelling)
    {
      NextKeepsInvariant(Current(), RetentionScheduling.Stop(cancelling));
      ActiveIsBegun(Current());
      hide Invariant;
      if !stopPromise.NotCalled? {
        return;
      }
      stopping := true;
      var failed := false;
      if timerScheduled {
        failed := cancelling.CancelThrew?;
        if armed > 0 && (cancelling.Cancelled? || !cancelling.kept) {
          armed := armed - 1;
        }
        timerScheduled := false;
      }
      if activeController.Some? {
        var i := activeController.value;
        runs := runs[i := runs[i].(aborted := true)];
      }
      stopPromise := Awaiting(activeRun, failed);
    }

    /** The rest of `stop`, once the awaited run has ended. */
    method StopSettles()
      requires Valid() && Enabled(Current(), RetentionScheduling.StopSettles)
      modifies this
      ensures Valid() && Current() == StopSettlesStep(old(Current()))
    {
      NextKeepsInvariant(Current(), RetentionScheduling.StopSettles);
      hide Invariant;
      stopPromise := StopSettled(stopPromise.failed);
    }
  }

  lemma ActiveIsBegun(s: State)
    requires Invariant(s)
    ensures s.activeController.Some? ==> s.activeController.value < |s.runs|
  {
  }
}
