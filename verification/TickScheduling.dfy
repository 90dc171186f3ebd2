/**
 The open-loop scheduler of tools/loadgen/aggregation.ts as a state and its steps. Tick `k` is due at
 `start + k * interval`; a tick is counted once, when it is dispatched, when a late loop skips it or when
 the stop finds it missed. Times are whole units of the monotonic clock.
 */
module TickScheduling {
  import opened Prelude

  datatype Config = Config(start: int, interval: int, maximumInFlight: nat)

  predicate IsConfig(c: Config) {
    c.interval > 0
  }

  datatype Kind = Success | Http | Timeout | Transport | InvalidResponse

  datatype Counters = Counters(
    scheduledTicks: nat, startedRequests: nat, completedRequests: nat,
    successfulResponses: nat, httpFailures: nat, timeoutFailures: nat,
    transportFailures: nat, invalidResponses: nat, missedTicks: nat)

  const ZERO := Counters(0, 0, 0, 0, 0, 0, 0, 0, 0)

  /** A request's outcome is counted in one microtask and it leaves the in-flight set in a later one. */
  datatype Request = Sent | Counted | Removed

  /** The call of stop: the measured end, and how many ticks had been counted by then. */
  datatype StopCall = StopCall(end: int, counted: nat)

  datatype State = State(
    tick: nat,                 // the first tick not counted yet
    counters: Counters,
    schedulingLag: seq<int>,
    requests: seq<Request>,    // every request ever sent, in order
    looping: bool,
    stopCall: Option<StopCall>,
    aborted: bool,
    now: int,                  // the latest reading of the clock
    countedAt: seq<int>,       // when each tick was counted
    punctual: bool)            // whether no sleep has ended before its deadline

  function Initial(c: Config): State {
    State(0, ZERO, [], [], true, None, false, c.start, [], true)
  }

  // ---------------------------------------------------------------- deadlines

  function Deadline(c: Config, k: nat): int {
    c.start + k * c.interval
  }

  function Lag(c: Config, k: nat, time: int): nat {
    if time <= Deadline(c, k) then 0 else time - Deadline(c, k)
  }

  /** How many ticks from `tick` on are due at `now`. */
  function SkippedTicks(c: Config, tick: nat, now: int): nat
    requires IsConfig(c)
  {
    if now >= Deadline(c, tick) then (now - Deadline(c, tick)) / c.interval + 1 else 0
  }

  /** The loop of accountTicksMissedAtStop: how many ticks from `tick` on were due before `end`. */
  function MissedTicks(c: Config, tick: nat, end: int): nat
    requires IsConfig(c)
    decreases end - Deadline(c, tick)
  {
    if Deadline(c, tick) >= end then 0 else
    NextDeadline(c, tick);
    1 + MissedTicks(c, tick + 1, end)
  }

  lemma MissedStep(c: Config, tick: nat, end: int)
    requires IsConfig(c)
    ensures MissedTicks(c, tick, end) == if Deadline(c, tick) >= end then 0 else 1 + MissedTicks(c, tick + 1, end)
    ensures Deadline(c, tick + 1) > Deadline(c, tick)
  {
    NextDeadline(c, tick);
  }

  lemma NextDeadline(c: Config, k: nat)
    ensures Deadline(c, k + 1) == Deadline(c, k) + c.interval
  {
  }

  lemma {:induction false} LaterDeadline(c: Config, k: nat, j: nat)
    requires IsConfig(c)
    ensures Deadline(c, k + j) == Deadline(c, k) + j * c.interval
    ensures j > 0 ==> Deadline(c, k + j) > Deadline(c, k)
  {
    if j > 0 {
      LaterDeadline(c, k, j - 1);
      NextDeadline(c, k + j - 1);
    }
  }

  lemma DeadlinesAscend(c: Config, j: nat, k: nat)
    requires IsConfig(c) && j <= k
    ensures Deadline(c, j) <= Deadline(c, k)
    ensures j < k ==> Deadline(c, j) < Deadline(c, k)
  {
    LaterDeadline(c, j, k - j);
  }

  lemma QuotientBounds(x: nat, d: int)
    requires d > 0
    ensures (x / d) * d <= x < (x / d + 1) * d
  {
    assert x == (x / d) * d + x % d;
  }

  /** The skipped ticks are exactly the ones already due. */
  lemma SkippedAreDue(c: Config, tick: nat, now: int, k: nat)
    requires IsConfig(c) && tick <= k
    ensures k < tick + SkippedTicks(c, tick, now) <==> Deadline(c, k) <= now
  {
    hide Deadline;
    DeadlinesAscend(c, tick, k);
    if now >= Deadline(c, tick) {
      var q := (now - Deadline(c, tick)) / c.interval;
      QuotientBounds(now - Deadline(c, tick), c.interval);
      LaterDeadline(c, tick, q);
      LaterDeadline(c, tick, q + 1);
      if k <= tick + q {
        DeadlinesAscend(c, k, tick + q);
      } else {
        DeadlinesAscend(c, tick + q + 1, k);
      }
    }
  }

  /** The number of ticks due before `end`. */
  function DeadlinesBefore(c: Config, end: int): nat
    requires IsConfig(c)
  {
    if end <= c.start then 0 else (end - c.start - 1) / c.interval + 1
  }

  lemma DeadlinesBeforeCounts(c: Config, end: int, k: nat)
    requires IsConfig(c)
    ensures k < DeadlinesBefore(c, end) <==> Deadline(c, k) < end
  {
    SkippedAreDue(c, 0, end - 1, k);
    assert Deadline(c, 0) == c.start;
  }

  /** What the stop adds brings the count up to every tick due before the end, and not beyond. */
  lemma {:induction false} MissedCompletes(c: Config, tick: nat, end: int)
    requires IsConfig(c)
    ensures var total := tick + MissedTicks(c, tick, end);
            total == if tick < DeadlinesBefore(c, end) then DeadlinesBefore(c, end) else tick
    decreases end - Deadline(c, tick)
  {
    hide Deadline;
    DeadlinesBeforeCounts(c, end, tick);
    if Deadline(c, tick) < end {
      NextDeadline(c, tick);
      MissedCompletes(c, tick + 1, end);
    }
  }

  // ---------------------------------------------------------------- steps

  function InFlight(requests: seq<Request>): nat {
    if requests == [] then 0 else (if requests[0].Removed? then 0 else 1) + InFlight(requests[1..])
  }

  /** dispatch, with its reading of the clock. */
  function Dispatch(c: Config, s: State, now: int): State {
    var counted := s.(
      counters := s.counters.(scheduledTicks := s.counters.scheduledTicks + 1),
      schedulingLag := s.schedulingLag + [if now - Deadline(c, s.tick) > 0 then now - Deadline(c, s.tick) else 0],
      tick := s.tick + 1, now := now, countedAt := s.countedAt + [now],
      punctual := s.punctual && now >= Deadline(c, s.tick));
    if InFlight(s.requests) >= c.maximumInFlight || s.aborted
    then counted.(counters := counted.counters.(missedTicks := counted.counters.missedTicks + 1))
    else counted.(counters := counted.counters.(startedRequests := counted.counters.startedRequests + 1),
                  requests := s.requests + [Sent])
  }

  /** The lags of `n` ticks from `tick` on, all counted at `time`. */
  function LagsAt(c: Config, tick: nat, n: nat, time: int): (lags: seq<int>)
    ensures |lags| == n
  {
    seq(n, j requires 0 <= j < n => time - (Deadline(c, tick) + j * c.interval))
  }

  function Readings(n: nat, time: int): (times: seq<int>)
    ensures |times| == n
  {
    seq(n, j requires 0 <= j < n => time)
  }

  lemma OneMoreReading(c: Config, tick: nat, n: nat, time: int)
    requires IsConfig(c)
    ensures LagsAt(c, tick, n + 1, time) == LagsAt(c, tick, n, time) + [time - (Deadline(c, tick) + n * c.interval)]
    ensures Readings(n + 1, time) == Readings(n, time) + [time]
    ensures Deadline(c, tick + n) == Deadline(c, tick) + n * c.interval
  {
    hide Deadline;
    LaterDeadline(c, tick, n);
  }

  /** Ticks counted without being dispatched. */
  function CountMissed(c: Config, s: State, n: nat, time: int): State {
    s.(counters := s.counters.(scheduledTicks := s.counters.scheduledTicks + n,
                               missedTicks := s.counters.missedTicks + n),
       schedulingLag := s.schedulingLag + LagsAt(c, s.tick, n, time),
       tick := s.tick + n, countedAt := s.countedAt + Readings(n, time))
  }

  /** One pass of the loop: dispatch the tick, then skip what is already due. */
  function TickStep(c: Config, s: State, dispatched: int, now: int): State
    requires IsConfig(c)
  {
    var t := Dispatch(c, s, dispatched);
    CountMissed(c, t, SkippedTicks(c, t.tick, now), now).(now := now)
  }

  /** The loop finds that stop has been called. */
  function ReturnStep(c: Config, s: State): State
    requires IsConfig(c) && s.stopCall.Some?
  {
    var end := s.stopCall.value.end;
    CountMissed(c, s, MissedTicks(c, s.tick, end), end).(looping := false)
  }

  function CountOutcome(k: Counters, kind: Kind): Counters {
    var done := k.(completedRequests := k.completedRequests + 1);
    match kind
    case Success => done.(successfulResponses := k.successfulResponses + 1)
    case Http => done.(httpFailures := k.httpFailures + 1)
    case Timeout => done.(timeoutFailures := k.timeoutFailures + 1)
    case Transport => done.(transportFailures := k.transportFailures + 1)
    case InvalidResponse => done.(invalidResponses := k.invalidResponses + 1)
  }

  datatype Event =
    | Tick(dispatched: int, now: int)
    | Stop(now: int)
    | Return
    | Abort
    | Leave
    | Completes(request: nat, kind: Kind)
    | IsRemoved(request: nat)

  predicate Enabled(s: State, e: Event) {
    match e
    case Tick(dispatched, now) => s.looping && s.stopCall.None? && !s.aborted && s.now <= dispatched <= now
    case Stop(now) => s.stopCall.None? && s.now <= now
    case Return => s.looping && s.stopCall.Some?
    case Abort => true
    case Leave => s.looping && s.aborted
    case Completes(i, _) => i < |s.requests| && s.requests[i].Sent?
    case IsRemoved(i) => i < |s.requests| && s.requests[i].Counted?
  }

  function Next(c: Config, s: State, e: Event): State
    requires IsConfig(c) && Enabled(s, e)
  {
    match e
    case Tick(dispatched, now) => TickStep(c, s, dispatched, now)
    case Stop(now) => s.(stopCall := Some(StopCall(now, s.tick)), now := now)
    case Return => ReturnStep(c, s)
    case Abort => s.(aborted := true)
    case Leave => s.(looping := false)
    case Completes(i, kind) => s.(requests := s.requests[i := Counted], counters := CountOutcome(s.counters, kind))
    case IsRemoved(i) => s.(requests := s.requests[i := Removed])
  }

  // ---------------------------------------------------------------- what every state satisfies

  function Unanswered(requests: seq<Request>): nat {
    if requests == [] then 0 else (if requests[0].Sent? then 1 else 0) + Unanswered(requests[1..])
  }

  function OutcomeSum(k: Counters): nat {
    k.successfulResponses + k.httpFailures + k.timeoutFailures + k.transportFailures + k.invalidResponses
  }

  /** Every counted tick has been started or missed, and has one lag sample: its own delay. */
  ghost predicate TicksAreAccounted(c: Config, s: State) {
    && s.counters.scheduledTicks == s.tick == |s.schedulingLag| == |s.countedAt|
    && s.counters.scheduledTicks == s.counters.startedRequests + s.counters.missedTicks
    && forall k :: 0 <= k < s.tick ==> s.schedulingLag[k] == Lag(c, k, s.countedAt[k])
  }

  ghost predicate RequestsAreAccounted(c: Config, s: State) {
    && s.counters.startedRequests == |s.requests|
    && s.counters.startedRequests == s.counters.completedRequests + Unanswered(s.requests)
    && s.counters.completedRequests ==
         s.counters.successfulResponses + s.counters.httpFailures + s.counters.timeoutFailures +
         s.counters.transportFailures + s.counters.invalidResponses
    && InFlight(s.requests) <= c.maximumInFlight
  }

  ghost predicate IsAccounted(c: Config, s: State) {
    TicksAreAccounted(c, s) && RequestsAreAccounted(c, s)
  }

  /** Before the stop only ticks already due are counted; the return adds the rest of the measured time. */
  ghost predicate StopIsAccounted(c: Config, s: State)
    requires IsConfig(c)
  {
    && (s.punctual && s.tick > 0 ==> Deadline(c, s.tick - 1) <= s.now)
    && (s.stopCall.None? && !s.aborted ==> s.looping)
    && (s.stopCall.Some? ==> s.stopCall.value.end == s.now && (s.looping ==> s.tick == s.stopCall.value.counted))
    && (s.stopCall.Some? && !s.looping && !s.aborted ==>
          var call := s.stopCall.value;
          s.tick == if call.counted < DeadlinesBefore(c, call.end) then DeadlinesBefore(c, call.end) else call.counted)
  }

  ghost predicate Invariant(c: Config, s: State) {
    IsConfig(c) && TicksAreAccounted(c, s) && RequestsAreAccounted(c, s) && StopIsAccounted(c, s)
  }

  lemma {:induction false} ChangedRequest(requests: seq<Request>, i: nat, r: Request)
    requires i < |requests|
    ensures var after := requests[i := r];
            && InFlight(after) ==
                 InFlight(requests) + (if requests[i].Removed? then 0 else -1) + (if r.Removed? then 0 else 1)
            && Unanswered(after) ==
                 Unanswered(requests) + (if requests[i].Sent? then -1 else 0) + (if r.Sent? then 1 else 0)
  {
    var after := requests[i := r];
    if i == 0 {
      assert after[1..] == requests[1..];
    } else {
      ChangedRequest(requests[1..], i - 1, r);
      assert after[1..] == requests[1..][i - 1 := r];
    }
  }

  lemma {:induction false} OneMoreRequest(requests: seq<Request>)
    ensures InFlight(requests + [Sent]) == InFlight(requests) + 1
    ensures Unanswered(requests + [Sent]) == Unanswered(requests) + 1
  {
    if requests == [] {
      assert requests + [Sent] == [Sent] && [Sent][1..] == [];
    } else {
      OneMoreRequest(requests[1..]);
      assert (requests + [Sent])[1..] == requests[1..] + [Sent];
    }
  }

  lemma DispatchKeeps(c: Config, s: State, now: int)
    requires IsConfig(c) && TicksAreAccounted(c, s) && RequestsAreAccounted(c, s)
    ensures TicksAreAccounted(c, Dispatch(c, s, now)) && RequestsAreAccounted(c, Dispatch(c, s, now))
  {
    hide Deadline, InFlight, Unanswered;
    OneMoreRequest(s.requests);
  }

  /**
   One tick more is counted, with its delay as its lag sample: as a started request if the requests in flight
   are below the limit and nothing is aborted, as a missed tick otherwise. Accounts that were right stay right.
   */
  ghost predicate CountsOneTick(c: Config, s: State, now: int, t: State) {
    && t.schedulingLag == s.schedulingLag + [Lag(c, s.tick, now)]
    && (if InFlight(s.requests) < c.maximumInFlight && !s.aborted
        then t.requests == s.requests + [Sent] && t.counters.missedTicks == s.counters.missedTicks
        else t.requests == s.requests && t.counters.missedTicks == s.counters.missedTicks + 1)
    && t.tick == s.tick + 1 && t.countedAt == s.countedAt + [now]
    && (IsConfig(c) && IsAccounted(c, s) ==> IsAccounted(c, t))
  }

  lemma DispatchCountsOneTick(c: Config, s: State, now: int)
    ensures CountsOneTick(c, s, now, Dispatch(c, s, now))
  {
    hide Deadline, InFlight, Unanswered, TicksAreAccounted, RequestsAreAccounted;
    OneMoreRequest(s.requests);
    if IsConfig(c) && IsAccounted(c, s) {
      DispatchKeeps(c, s, now);
    }
  }

  lemma CountMissedKeeps(c: Config, s: State, n: nat, time: int)
    requires IsConfig(c) && TicksAreAccounted(c, s)
    requires n > 0 ==> Deadline(c, s.tick + n - 1) <= time
    ensures TicksAreAccounted(c, CountMissed(c, s, n, time))
  {
    hide Deadline;
    var t := CountMissed(c, s, n, time);
    forall k | s.tick <= k < s.tick + n ensures t.schedulingLag[k] == Lag(c, k, t.countedAt[k]) {
      LaterDeadline(c, s.tick, k - s.tick);
      DeadlinesAscend(c, k, s.tick + n - 1);
    }
  }

  lemma TickKeeps(c: Config, s: State, dispatched: int, now: int)
    requires Invariant(c, s) && Enabled(s, Tick(dispatched, now))
    ensures Invariant(c, TickStep(c, s, dispatched, now))
  {
    hide Deadline, InFlight, Unanswered, DeadlinesBefore, SkippedTicks, TicksAreAccounted;
    DispatchKeeps(c, s, dispatched);
    var t := Dispatch(c, s, dispatched);
    var n := SkippedTicks(c, t.tick, now);
    if n > 0 {
      SkippedAreDue(c, t.tick, now, t.tick + n - 1);
    }
    CountMissedKeeps(c, t, n, now);
    SameTicks(c, CountMissed(c, t, n, now), TickStep(c, s, dispatched, now));
  }

  lemma SameTicks(c: Config, s: State, t: State)
    requires TicksAreAccounted(c, s)
    requires t.counters == s.counters && t.tick == s.tick && t.schedulingLag == s.schedulingLag &&
      t.countedAt == s.countedAt
    ensures TicksAreAccounted(c, t)
  {
  }

  lemma ReturnKeeps(c: Config, s: State)
    requires Invariant(c, s) && Enabled(s, Return)
    ensures Invariant(c, ReturnStep(c, s))
  {
    hide Deadline, InFlight, Unanswered, DeadlinesBefore, MissedTicks, TicksAreAccounted;
    var end := s.stopCall.value.end;
    var n := MissedTicks(c, s.tick, end);
    MissedCompletes(c, s.tick, end);
    if n > 0 {
      DeadlinesBeforeCounts(c, end, s.tick + n - 1);
    }
    CountMissedKeeps(c, s, n, end);
    SameTicks(c, CountMissed(c, s, n, end), ReturnStep(c, s));
  }

  lemma NextKeepsInvariant(c: Config, s: State, e: Event)
    requires Invariant(c, s) && Enabled(s, e)
    ensures Invariant(c, Next(c, s, e))
  {
    hide TickStep, ReturnStep, InFlight, Unanswered, DeadlinesBefore, Deadline;
    match e
    case Tick(dispatched, now) => TickKeeps(c, s, dispatched, now);
    case Return => ReturnKeeps(c, s);
    case Completes(i, _) => ChangedRequest(s.requests, i, Counted);
    case IsRemoved(i) => ChangedRequest(s.requests, i, Removed);
    case Stop(_) =>
    case Abort =>
    case Leave =>
  }

  // ---------------------------------------------------------------- whole runs

  ghost predicate IsRun(c: Config, s: State, events: seq<Event>)
    requires IsConfig(c)
    decreases |events|
  {
    events == [] || (Enabled(s, events[0]) && IsRun(c, Next(c, s, events[0]), events[1..]))
  }

  ghost function AfterRun(c: Config, s: State, events: seq<Event>): State
    requires IsConfig(c) && IsRun(c, s, events)
    decreases |events|
  {
    if events == [] then s else AfterRun(c, Next(c, s, events[0]), events[1..])
  }

  lemma {:induction false} RunKeepsInvariant(c: Config, s: State, events: seq<Event>)
    requires Invariant(c, s) && IsRun(c, s, events)
    ensures Invariant(c, AfterRun(c, s, events))
    decreases |events|
  {
    if events == [] {
    } else {
      hide Invariant, Next, Enabled;
      NextKeepsInvariant(c, s, events[0]);
      assert IsConfig(c);
      RunKeepsInvariant(c, Next(c, s, events[0]), events[1..]);
    }
  }

  /**
   An unaborted run counts, once its loop has returned, every tick due before the measured end, together
   with what it had counted before. When no sleep ended early that is exactly the deadlines before the
   end, and one more only if a deadline equal to the end had already been counted.
   */
  lemma ScheduledTicksAreDeadlines(c: Config, events: seq<Event>)
    requires IsConfig(c) && IsRun(c, Initial(c), events)
    requires var s := AfterRun(c, Initial(c), events); s.stopCall.Some? && !s.looping && !s.aborted
    ensures var s := AfterRun(c, Initial(c), events);
            var call := s.stopCall.value;
            && s.counters.scheduledTicks == |s.schedulingLag| == s.counters.startedRequests + s.counters.missedTicks
            && s.counters.scheduledTicks ==
                 (if call.counted < DeadlinesBefore(c, call.end) then DeadlinesBefore(c, call.end) else call.counted)
            && (s.punctual ==>
                  s.counters.scheduledTicks == DeadlinesBefore(c, call.end) +
                    if call.counted > 0 && Deadline(c, call.counted - 1) == call.end then 1 else 0)
  {
    RunKeepsInvariant(c, Initial(c), events);
    hide Deadline, DeadlinesBefore, IsRun, AfterRun, InFlight, Unanswered;
    var s := AfterRun(c, Initial(c), events);
    var call := s.stopCall.value;
    if call.counted > 0 {
      DeadlinesBeforeCounts(c, call.end, call.counted - 1);
      DeadlinesBeforeCounts(c, call.end, call.counted);
      if call.counted > 1 {
        DeadlinesBeforeCounts(c, call.end, call.counted - 2);
        DeadlinesAscend(c, call.counted - 2, call.counted - 1);
      }
      DeadlinesAscend(c, call.counted - 1, s.tick - 1);
    }
  }

  // ---------------------------------------------------------------- what the outcome counts count

  /** How many requests a run completed with an outcome of that kind. */
  function Completed(events: seq<Event>, kind: Kind): nat {
    if events == [] then 0
    else (if events[0].Completes? && events[0].kind == kind then 1 else 0) + Completed(events[1..], kind)
  }

  function OutcomesAt(k: Counters): map<Kind, nat> {
    map[Success := k.successfulResponses, Http := k.httpFailures, Timeout := k.timeoutFailures,
        Transport := k.transportFailures, InvalidResponse := k.invalidResponses]
  }

  lemma StepCountsOutcome(c: Config, s: State, e: Event, kind: Kind)
    requires IsConfig(c) && Enabled(s, e)
    ensures OutcomesAt(Next(c, s, e).counters)[kind]
         == OutcomesAt(s.counters)[kind] + if e.Completes? && e.kind == kind then 1 else 0
  {
    hide Deadline, InFlight, MissedTicks, SkippedTicks, LagsAt, Readings;
  }

  /** In every run each outcome count is the number of requests that completed with that outcome. */
  lemma {:induction false} OutcomesAreCounted(c: Config, s: State, events: seq<Event>, kind: Kind)
    requires IsConfig(c) && IsRun(c, s, events)
    ensures OutcomesAt(AfterRun(c, s, events).counters)[kind] == OutcomesAt(s.counters)[kind] + Completed(events, kind)
    decreases |events|
  {
    hide Next, Enabled, OutcomesAt;
    if events != [] {
      StepCountsOutcome(c, s, events[0], kind);
      OutcomesAreCounted(c, Next(c, s, events[0]), events[1..], kind);
    }
  }

  // ---------------------------------------------------------------- the checks of the report

  datatype AccountingError = Scheduling | Terminal | Outcomes

  /** immutableCounters. */
  function CheckCounters(k: Counters, unresolved: nat): Option<AccountingError> {
    if k.scheduledTicks != k.startedRequests + k.missedTicks then Some(Scheduling)
    else if k.startedRequests != k.completedRequests + unresolved then Some(Terminal)
    else if k.completedRequests != OutcomeSum(k) then Some(Outcomes)
    else None
  }

  predicate HasCounted(requests: seq<Request>) {
    Counted in requests
  }

  lemma {:induction false} WindowIsTheDifference(requests: seq<Request>)
    ensures InFlight(requests) >= Unanswered(requests)
    ensures InFlight(requests) == Unanswered(requests) <==> !HasCounted(requests)
  {
    if requests != [] {
      WindowIsTheDifference(requests[1..]);
      assert requests == [requests[0]] + requests[1..];
    }
  }

  /** Between steps the checks pass unless some request's outcome is counted while it is still in flight. */
  lemma ChecksOfState(c: Config, s: State)
    requires Invariant(c, s)
    ensures CheckCounters(s.counters, InFlight(s.requests)) == if HasCounted(s.requests) then Some(Terminal) else None
  {
    hide InFlight, Unanswered;
    WindowIsTheDifference(s.requests);
  }
}
