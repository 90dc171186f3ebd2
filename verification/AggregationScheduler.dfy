/**
 The scheduler object of tools/loadgen/aggregation.ts with its mutable counters and its loops; each method
 is proved to take exactly the step of module TickScheduling. Readings of the clock are parameters.
 */
module AggregationScheduler {
  import opened Prelude
  import opened TickScheduling

  class Scheduler {
    const config: Config

    var tick: nat
    var counters: Counters
    var schedulingLag: seq<int>
    var requests: seq<Request>
    var looping: bool
    var stopCall: Option<StopCall>
    var aborted: bool

    // The latest reading of the clock and the readings at which ticks were counted.
    var now: int
    var countedAt: seq<int>
    var punctual: bool

    ghost function Current(): State
      reads this
    {
      State(tick, counters, schedulingLag, requests, looping, stopCall, aborted, now, countedAt, punctual)
    }

    ghost predicate Valid()
      reads this
    {
      Invariant(config, Current())
    }

    constructor (config: Config)
      requires IsConfig(config)
      ensures Valid() && this.config == config && Current() == Initial(config)
    {
      this.config := config;
      tick, counters, schedulingLag, requests := 0, ZERO, [], [];
      looping, stopCall, aborted := true, None, false;
      now, countedAt, punctual := config.start, [], true;
    }

    method DispatchTick(deadline: int, reading: int)
      requires deadline == Deadline(config, tick)
      modifies this
      ensures CountsOneTick(config, old(Current()), reading, Current())
      ensures Current() == Dispatch(config, old(Current()), reading)
    {
      DispatchCountsOneTick(config, Current(), reading);
      hide Deadline, InFlight, CountsOneTick;
      counters := counters.(scheduledTicks := counters.scheduledTicks + 1);
      schedulingLag := schedulingLag + [if reading - deadline > 0 then reading - deadline else 0];
      tick, now, countedAt, punctual := tick + 1, reading, countedAt + [reading], punctual && reading >= deadline;
      if InFlight(requests) >= config.maximumInFlight || aborted {
        counters := counters.(missedTicks := counters.missedTicks + 1);
        return;
      }
      counters := counters.(startedRequests := counters.startedRequests + 1);
      requests := requests + [Sent];
    }

    /** The catch-up of a late loop. */
    method SkipDueTicks(reading: int)
      requires IsConfig(config)
      modifies `tick, `counters, `schedulingLag, `countedAt, `now
      ensures var s := old(Current());
              Current() == CountMissed(config, s, SkippedTicks(config, s.tick, reading), reading).(now := reading)
    {
      var nextDeadline := Deadline(config, tick);
      now := reading;
      if reading >= nextDeadline {
        var skippedTicks := (reading - nextDeadline) / config.interval + 1;
        counters := counters.(scheduledTicks := counters.scheduledTicks + skippedTicks,
                              missedTicks := counters.missedTicks + skippedTicks);
        hide Deadline, LagsAt, Readings;
        for skipped := 0 to skippedTicks
          invariant schedulingLag == old(schedulingLag) + LagsAt(config, tick, skipped, reading)
          invariant countedAt == old(countedAt) + Readings(skipped, reading)
          invariant tick == old(tick) && now == reading
          invariant counters == old(counters).(scheduledTicks := old(counters.scheduledTicks) + skippedTicks,
                                               missedTicks := old(counters.missedTicks) + skippedTicks)
        {
          OneMoreReading(config, tick, skipped, reading);
          schedulingLag := schedulingLag + [reading - (nextDeadline + skipped * config.interval)];
          countedAt := countedAt + [reading];
        }
        tick := tick + skippedTicks;
      }
    }

    /** One pass of the scheduling loop. */
    method LoopOnce(dispatched: int, reading: int)
      requires Valid() && Enabled(Current(), Tick(dispatched, reading))
      modifies this
      ensures Valid() && Current() == TickStep(config, old(Current()), dispatched, reading)
    {
      NextKeepsInvariant(config, Current(), Tick(dispatched, reading));
      hide Invariant, Deadline, SkippedTicks, Dispatch, CountMissed;
      DispatchTick(Deadline(config, tick), dispatched);
      SkipDueTicks(reading);
    }

    method AccountTicksMissedAtStop()
      requires IsConfig(config) && stopCall.Some?
      modifies `tick, `counters, `schedulingLag, `countedAt
      ensures var s := old(Current());
              Current() ==
                CountMissed(config, s, MissedTicks(config, s.tick, s.stopCall.value.end), s.stopCall.value.end)
    {
      var measuredEnd := stopCall.value.end;
      hide Deadline, LagsAt, Readings, MissedTicks;
      ghost var first := tick;
      while true
        invariant first <= tick
        invariant tick + MissedTicks(config, tick, measuredEnd) == first + MissedTicks(config, first, measuredEnd)
        invariant schedulingLag == old(schedulingLag) + LagsAt(config, first, tick - first, measuredEnd)
        invariant countedAt == old(countedAt) + Readings(tick - first, measuredEnd)
        invariant counters == old(counters).(scheduledTicks := old(counters.scheduledTicks) + (tick - first),
                                             missedTicks := old(counters.missedTicks) + (tick - first))
        decreases measuredEnd - Deadline(config, tick)
      {
        var deadline := Deadline(config, tick);
        MissedStep(config, tick, measuredEnd);
        if deadline >= measuredEnd {
          return;
        }
        OneMoreReading(config, first, tick - first, measuredEnd);
        counters := counters.(scheduledTicks := counters.scheduledTicks + 1, missedTicks := counters.missedTicks + 1);
        schedulingLag := schedulingLag + [if measuredEnd - deadline > 0 then measuredEnd - deadline else 0];
        countedAt := countedAt + [measuredEnd];
        tick := tick + 1;
      }
    }

    /** The loop wakes up after a stop. */
    method ReturnFromLoop()
      requires Valid() && Enabled(Current(), Return)
      modifies this
      ensures Valid() && Current() == ReturnStep(config, old(Current()))
    {
      NextKeepsInvariant(config, Current(), Return);
      hide Invariant, MissedTicks, CountMissed;
      AccountTicksMissedAtStop();
      looping := false;
    }

    /** `stop`, called with the clock's reading, up to its first await. */
    method StopAt(reading: int)
      requires Valid() && Enabled(Current(), Stop(reading))
      modifies this
      ensures Valid() && Current() == Next(config, old(Current()), Stop(reading))
    {
      NextKeepsInvariant(config, Current(), Stop(reading));
      hide Invariant;
      stopCall := Some(StopCall(reading, tick));
      now := reading;
    }

    /** A completed request is counted under exactly one outcome. */
    method CountRequest(kind: Kind)
      modifies `counters
      ensures counters.completedRequests == old(counters).completedRequests + 1
      ensures OutcomeSum(counters) == OutcomeSum(old(counters)) + 1
      ensures counters.scheduledTicks == old(counters).scheduledTicks
      ensures counters.startedRequests == old(counters).startedRequests
      ensures counters.missedTicks == old(counters).missedTicks
      ensures counters == CountOutcome(old(counters), kind)
    {
      counters := counters.(completedRequests := counters.completedRequests + 1);
      match kind {
        case Success => counters := counters.(successfulResponses := counters.successfulResponses + 1);
        case Http => counters := counters.(httpFailures := counters.httpFailures + 1);
        case Timeout => counters := counters.(timeoutFailures := counters.timeoutFailures + 1);
        case Transport => counters := counters.(transportFailures := counters.transportFailures + 1);
        case InvalidResponse => counters := counters.(invalidResponses := counters.invalidResponses + 1);
      }
    }

    /** The handler of a request's outcome, a rejection being a transport failure. */
    method RequestCompletes(i: nat, kind: Kind)
      requires Valid() && Enabled(Current(), Completes(i, kind))
      modifies this
      ensures Valid() && Current() == Next(config, old(Current()), Completes(i, kind))
    {
      NextKeepsInvariant(config, Current(), Completes(i, kind));
      hide Invariant, CountOutcome;
      CountRequest(kind);
      requests := requests[i := Counted];
    }

    /** The `finally` of a request. */
    method RequestIsRemoved(i: nat)
      requires Valid() && Enabled(Current(), IsRemoved(i))
      modifies this
      ensures Valid() && Current() == Next(config, old(Current()), IsRemoved(i))
    {
      NextKeepsInvariant(config, Current(), IsRemoved(i));
      hide Invariant;
      requests := requests[i := Removed];
    }
  }
}
