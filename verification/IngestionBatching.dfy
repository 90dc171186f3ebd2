/**
 src/modules/ingestion/batched-ingestion-repository.ts as a state and its steps: what an insert call, the
 flush timer, a batch's settlement, the release of its slot and a close call do to the coordinator.
 Settling the promises of a batch and releasing its slot are separate microtasks, so separate steps.
 */
module IngestionBatching {
  import opened Prelude
  import opened LogEntry

  /** A queued public request: its promise (numbered in order of acceptance) and its records. */
  datatype Write = Write(id: nat, records: seq<Log>)

  datatype Outcome = Fulfilled | Failed(error: string)

  datatype Phase = Running | Settled(outcome: Outcome) | Released(outcome: Outcome)

  /** A started underlying insert: the writes it answers for and the records it was given. */
  datatype Batch = Batch(writes: seq<Write>, records: seq<Log>, phase: Phase)

  /** One promise resolved or rejected. */
  datatype Settlement = Settlement(id: nat, outcome: Outcome)

  datatype Limits = Limits(flushDelayMs: nat, maxBatchRows: nat, maxQueuedRows: nat, maxConcurrentWrites: nat)

  /** readPositiveInteger and readDelay refuse anything else. */
  predicate AreLimits(lim: Limits) {
    lim.maxBatchRows >= 1 && lim.maxQueuedRows >= 1 && lim.maxConcurrentWrites >= 1
  }

  datatype State = State(
    pending: seq<Write>,
    queuedRows: int,
    activeWrites: int,
    scheduledFlush: Option<nat>,   // the delay of the one timer, if it is set
    closed: bool,
    closeWaiters: nat,             // close promises not resolved yet
    accepted: seq<Write>,          // every write ever queued, in order
    batches: seq<Batch>,           // every batch ever started, in order
    settlements: seq<Settlement>,  // every promise settled, in order
    timersSet: nat)                // how often a timer was set

  const INITIAL := State([], 0, 0, None, false, 0, [], [], [], 0)

  // ---------------------------------------------------------------- taking a batch

  function Rows(writes: seq<Write>): nat {
    if writes == [] then 0 else |writes[0].records| + Rows(writes[1..])
  }

  function CombinedRecords(writes: seq<Write>): (records: seq<Log>)
    ensures |records| == Rows(writes)
  {
    if writes == [] then [] else writes[0].records + CombinedRecords(writes[1..])
  }

  /** The loop of takeBatch, after `n` writes with `rows` rows have been taken. */
  function TakeFrom(pending: seq<Write>, n: nat, rows: nat, maxRows: nat): (count: nat)
    requires n <= |pending|
    ensures n <= count <= |pending|
    ensures n == 0 && pending != [] ==> count >= 1
    decreases |pending| - n
  {
    if n == |pending| then n else
    var next := |pending[n].records|;
    if n > 0 && rows + next > maxRows then n
    else if rows + next >= maxRows then n + 1
    else TakeFrom(pending, n + 1, rows + next, maxRows)
  }

  function TakeCount(pending: seq<Write>, maxRows: nat): (count: nat)
    ensures count <= |pending| && (pending != [] ==> count >= 1)
  {
    TakeFrom(pending, 0, 0, maxRows)
  }

  ghost predicate NonEmptyWrites(writes: seq<Write>) {
    forall w :: w in writes ==> w.records != []
  }

  lemma {:induction false} RowsAppend(writes: seq<Write>, more: seq<Write>)
    ensures Rows(writes + more) == Rows(writes) + Rows(more)
  {
    if writes == [] {
      assert writes + more == more;
    } else {
      RowsAppend(writes[1..], more);
      assert (writes + more)[1..] == writes[1..] + more;
    }
  }

  lemma RowsOfPrefix(writes: seq<Write>, n: nat)
    requires n < |writes|
    ensures Rows(writes[..n + 1]) == Rows(writes[..n]) + |writes[n].records|
  {
    RowsAppend(writes[..n], [writes[n]]);
    assert writes[..n + 1] == writes[..n] + [writes[n]];
    assert [writes[n]][1..] == [];
  }

  lemma RowsSplit(writes: seq<Write>, n: nat)
    requires n <= |writes|
    ensures Rows(writes) == Rows(writes[..n]) + Rows(writes[n..])
  {
    RowsAppend(writes[..n], writes[n..]);
    assert writes == writes[..n] + writes[n..];
  }

  lemma {:induction false} TakeFromIsMaximal(pending: seq<Write>, n: nat, maxRows: nat)
    requires n <= |pending| && NonEmptyWrites(pending)
    requires n == 0 || Rows(pending[..n]) < maxRows
    ensures var count := TakeFrom(pending, n, Rows(pending[..n]), maxRows);
            && (count <= 1 || Rows(pending[..count]) <= maxRows)
            && (count < |pending| ==> Rows(pending[..count + 1]) > maxRows)
    decreases |pending| - n
  {
    if n < |pending| {
      RowsOfPrefix(pending, n);
      var rows := Rows(pending[..n + 1]);
      if rows < maxRows {
        TakeFromIsMaximal(pending, n + 1, maxRows);
      } else if n + 1 < |pending| {
        RowsOfPrefix(pending, n + 1);
        assert pending[n + 1] in pending;
      }
    }
  }

  /**
   A batch is the longest run of whole writes from the front of the queue that fits the row budget;
   a first write over the budget goes alone. No write is ever split.
   */
  lemma BatchIsLongestFittingPrefix(pending: seq<Write>, maxRows: nat)
    requires NonEmptyWrites(pending)
    ensures var count := TakeCount(pending, maxRows);
            && (count <= 1 || Rows(pending[..count]) <= maxRows)
            && (count < |pending| ==> Rows(pending[..count + 1]) > maxRows)
  {
    TakeFromIsMaximal(pending, 0, maxRows);
    assert pending[..0] == [];
  }

  // ---------------------------------------------------------------- steps

  function FlushDelay(lim: Limits, s: State): nat {
    if s.closed || s.queuedRows >= lim.maxBatchRows then 0 else lim.flushDelayMs
  }

  function ScheduleFlush(lim: Limits, s: State, delay: nat): State {
    if s.pending == [] || s.activeWrites >= lim.maxConcurrentWrites then s
    else if s.scheduledFlush.Some? && delay != 0 then s
    else s.(scheduledFlush := Some(delay), timersSet := s.timersSet + 1)
  }

  /** takeBatch followed by startWrite. */
  function StartOne(lim: Limits, s: State): State {
    var count := TakeCount(s.pending, lim.maxBatchRows);
    var writes := s.pending[..count];
    s.(pending := s.pending[count..],
       queuedRows := s.queuedRows - Rows(writes),
       activeWrites := s.activeWrites + 1,
       batches := s.batches + [Batch(writes, CombinedRecords(writes), Running)])
  }

  function StartLoop(lim: Limits, s: State): State
    decreases |s.pending|
  {
    if s.activeWrites < lim.maxConcurrentWrites && s.pending != [] then
      var t := StartOne(lim, s);
      if !t.closed && t.queuedRows < lim.maxBatchRows then t else StartLoop(lim, t)
    else s
  }

  function StartAvailableWrites(lim: Limits, s: State): State {
    var t := StartLoop(lim, s);
    if t.pending != [] && t.activeWrites < lim.maxConcurrentWrites
    then ScheduleFlush(lim, t, FlushDelay(lim, t)) else t
  }

  datatype InsertResult = AlreadyResolved | AlreadyRejected | Pending(id: nat)

  function InsertStep(lim: Limits, s: State, records: seq<Log>): (State, InsertResult) {
    if records == [] then (s, AlreadyResolved)
    else if s.closed || (s.queuedRows > 0 && s.queuedRows + |records| > lim.maxQueuedRows) then (s, AlreadyRejected)
    else
      var write := Write(|s.accepted|, records);
      var t := s.(pending := s.pending + [write], queuedRows := s.queuedRows + |records|,
        accepted := s.accepted + [write]);
      var u := if t.activeWrites < lim.maxConcurrentWrites && |t.pending| == 1
               then StartAvailableWrites(lim, t)
               else ScheduleFlush(lim, t, if t.queuedRows >= lim.maxBatchRows then 0 else lim.flushDelayMs);
      (u, Pending(write.id))
  }

  function TimerStep(lim: Limits, s: State): State {
    StartAvailableWrites(lim, s.(scheduledFlush := None))
  }

  function SettlementsOf(writes: seq<Write>, outcome: Outcome): seq<Settlement> {
    seq(|writes|, i requires 0 <= i < |writes| => Settlement(writes[i].id, outcome))
  }

  /** The underlying insert ended: every write of the batch is resolved, or every one rejected. */
  function SettleStep(s: State, i: nat, outcome: Outcome): State
    requires i < |s.batches|
  {
    s.(batches := s.batches[i := s.batches[i].(phase := Settled(outcome))],
       settlements := s.settlements + SettlementsOf(s.batches[i].writes, outcome))
  }

  function SettleClose(s: State): State {
    if !s.closed || s.pending != [] || s.activeWrites > 0 then s else s.(closeWaiters := 0)
  }

  function GiveSlotBack(s: State, i: nat): State
    requires i < |s.batches| && s.batches[i].phase.Settled?
  {
    s.(activeWrites := s.activeWrites - 1,
       batches := s.batches[i := s.batches[i].(phase := Released(s.batches[i].phase.outcome))])
  }

  /** The `finally` of the batch: give the slot back, wake the queue, resolve close if drained. */
  function ReleaseStep(lim: Limits, s: State, i: nat): State
    requires i < |s.batches| && s.batches[i].phase.Settled?
  {
    var t := GiveSlotBack(s, i);
    SettleClose(if t.pending != [] then ScheduleFlush(lim, t, FlushDelay(lim, t)) else t)
  }

  predicate IsDrained(s: State) {
    s.pending == [] && s.activeWrites == 0
  }

  /** The new state, and whether the promise returned is already resolved. */
  function CloseStep(lim: Limits, s: State): (State, bool) {
    if s.closed && IsDrained(s) then (s, true) else
    var t := StartAvailableWrites(lim, s.(closed := true, scheduledFlush := None));
    if IsDrained(t) then (t, true) else (t.(closeWaiters := t.closeWaiters + 1), false)
  }

  datatype Event =
    | Insert(records: seq<Log>)
    | TimerFires
    | BatchSettles(batch: nat, outcome: Outcome)
    | SlotReleased(batch: nat)
    | Close

  predicate Enabled(s: State, e: Event) {
    match e
    case Insert(_) => true
    case TimerFires => s.scheduledFlush.Some?
    case BatchSettles(i, _) => i < |s.batches| && s.batches[i].phase.Running?
    case SlotReleased(i) => i < |s.batches| && s.batches[i].phase.Settled?
    case Close => true
  }

  function Next(lim: Limits, s: State, e: Event): State
    requires Enabled(s, e)
  {
    match e
    case Insert(records) => InsertStep(lim, s, records).0
    case TimerFires => TimerStep(lim, s)
    case BatchSettles(i, outcome) => SettleStep(s, i, outcome)
    case SlotReleased(i) => ReleaseStep(lim, s, i)
    case Close => CloseStep(lim, s).0
  }

  // ---------------------------------------------------------------- what holds between events

  function Unreleased(batches: seq<Batch>): nat {
    if batches == [] then 0 else (if batches[0].phase.Released? then 0 else 1) + Unreleased(batches[1..])
  }

  function Dispatched(batches: seq<Batch>): seq<Write> {
    if batches == [] then [] else batches[0].writes + Dispatched(batches[1..])
  }

  function SettledBy(batches: seq<Batch>): multiset<Settlement> {
    if batches == [] then multiset{}
    else (if batches[0].phase.Running? then multiset{}
      else multiset(SettlementsOf(batches[0].writes, batches[0].phase.outcome)))
         + SettledBy(batches[1..])
  }

  /** The queue: its rows are counted, and over the limit only when it is one oversized write. */
  ghost predicate QueueInvariant(lim: Limits, s: State) {
    && s.queuedRows == Rows(s.pending)
    && NonEmptyWrites(s.pending)
    && (s.queuedRows <= lim.maxQueuedRows || |s.pending| == 1)
  }

  /**
   No lost wakeup: a flush is scheduled exactly while a write waits and a slot is free, at once when closed or
   with a full batch waiting, and after the flush delay otherwise.
   */
  ghost predicate WakeupInvariant(lim: Limits, s: State) {
    s.scheduledFlush ==
      if s.pending == [] || s.activeWrites >= lim.maxConcurrentWrites then None
      else if s.closed || Rows(s.pending) >= lim.maxBatchRows then Some(0)
      else Some(lim.flushDelayMs)
  }

  /** What a call of scheduleFlush may find: the delay that is due, and a timer only where it is needed. */
  ghost predicate IsWakeable(lim: Limits, s: State, delay: nat) {
    && s.queuedRows == Rows(s.pending) && delay == FlushDelay(lim, s)
    && (s.scheduledFlush.Some? ==>
          && s.pending != [] && s.activeWrites < lim.maxConcurrentWrites
          && (s.scheduledFlush == Some(lim.flushDelayMs) || delay == 0))
  }

  ghost predicate IsWholeBatch(lim: Limits, b: Batch) {
    && b.writes != []
    && b.records == CombinedRecords(b.writes)
    && (|b.writes| == 1 || Rows(b.writes) <= lim.maxBatchRows)
  }

  /** In order and complete: the accepted writes are the dispatched ones followed by the queue. */
  ghost predicate OrderInvariant(lim: Limits, s: State) {
    && s.accepted == Dispatched(s.batches) + s.pending
    && (forall i :: 0 <= i < |s.accepted| ==> s.accepted[i].id == i)
    && (forall b :: b in s.batches ==> IsWholeBatch(lim, b))
  }

  ghost predicate SlotInvariant(lim: Limits, s: State) {
    0 <= s.activeWrites <= lim.maxConcurrentWrites && s.activeWrites == Unreleased(s.batches)
  }

  ghost predicate CloseInvariant(s: State) {
    s.closeWaiters > 0 ==> s.closed && !IsDrained(s)
  }

  ghost predicate SettlementInvariant(s: State) {
    multiset(s.settlements) == SettledBy(s.batches)
  }

  ghost predicate Invariant(lim: Limits, s: State) {
    && AreLimits(lim)
    && QueueInvariant(lim, s)
    && WakeupInvariant(lim, s)
    && OrderInvariant(lim, s)
    && SlotInvariant(lim, s)
    && CloseInvariant(s)
    && SettlementInvariant(s)
  }

  // ---------------------------------------------------------------- sequences of batches

  lemma {:induction false} BatchesAppend(batches: seq<Batch>, b: Batch)
    ensures Unreleased(batches + [b]) == Unreleased(batches) + if b.phase.Released? then 0 else 1
    ensures Dispatched(batches + [b]) == Dispatched(batches) + b.writes
    ensures b.phase.Running? ==> SettledBy(batches + [b]) == SettledBy(batches)
  {
    if batches == [] {
      assert batches + [b] == [b];
      assert [b][1..] == [];
    } else {
      BatchesAppend(batches[1..], b);
      assert (batches + [b])[1..] == batches[1..] + [b];
    }
  }

  lemma {:induction false} BatchUpdate(batches: seq<Batch>, i: nat, phase: Phase)
    requires i < |batches|
    ensures var after := batches[i := batches[i].(phase := phase)];
            && Dispatched(after) == Dispatched(batches)
            && Unreleased(after) == Unreleased(batches) - (if batches[i].phase.Released? then 0 else 1)
                 + (if phase.Released? then 0 else 1)
            && (batches[i].phase.Running? && !phase.Running? ==>
                  SettledBy(after) == SettledBy(batches) + multiset(SettlementsOf(batches[i].writes, phase.outcome)))
            && (!batches[i].phase.Running? && !phase.Running? && phase.outcome == batches[i].phase.outcome ==>
                  SettledBy(after) == SettledBy(batches))
  {
    hide SettlementsOf, Dispatched, Unreleased, SettledBy;
    UpdateKeepsOrder(batches, i, phase);
    if !phase.Running? && (batches[i].phase.Running? || phase.outcome == batches[i].phase.outcome) {
      UpdateSettles(batches, i, phase);
    }
  }

  lemma {:induction false} UpdateKeepsOrder(batches: seq<Batch>, i: nat, phase: Phase)
    requires i < |batches|
    ensures var after := batches[i := batches[i].(phase := phase)];
            && Dispatched(after) == Dispatched(batches)
            && Unreleased(after) == Unreleased(batches) - (if batches[i].phase.Released? then 0 else 1)
                 + (if phase.Released? then 0 else 1)
  {
    var after := batches[i := batches[i].(phase := phase)];
    if i == 0 {
      assert after[1..] == batches[1..];
    } else {
      UpdateKeepsOrder(batches[1..], i - 1, phase);
      assert after[1..] == batches[1..][i - 1 := batches[i].(phase := phase)];
    }
  }

  lemma {:induction false} UpdateSettles(batches: seq<Batch>, i: nat, phase: Phase)
    requires i < |batches| && !phase.Running?
    requires batches[i].phase.Running? || phase.outcome == batches[i].phase.outcome
    ensures var after := batches[i := batches[i].(phase := phase)];
            SettledBy(after) == SettledBy(batches) +
              if batches[i].phase.Running? then multiset(SettlementsOf(batches[i].writes, phase.outcome))
                else multiset{}
  {
    hide SettlementsOf;
    var after := batches[i := batches[i].(phase := phase)];
    if i == 0 {
      assert after[1..] == batches[1..];
    } else {
      UpdateSettles(batches[1..], i - 1, phase);
      assert after[1..] == batches[1..][i - 1 := batches[i].(phase := phase)];
    }
  }

  lemma {:induction false} UnreleasedIsPositive(batches: seq<Batch>, i: nat)
    requires i < |batches| && !batches[i].phase.Released?
    ensures Unreleased(batches) >= 1
  {
    if i > 0 {
      UnreleasedIsPositive(batches[1..], i - 1);
    }
  }

  // ---------------------------------------------------------------- every step keeps the invariant

  /** Everything but the wakeup and close parts, which starting writes re-establishes at its end. */
  ghost predicate CoreInvariant(lim: Limits, s: State) {
    AreLimits(lim) && QueueInvariant(lim, s) && OrderInvariant(lim, s) && SlotInvariant(lim, s) &&
      SettlementInvariant(s)
  }

  lemma StartOneKeepsCore(lim: Limits, s: State)
    requires CoreInvariant(lim, s) && s.pending != [] && s.activeWrites < lim.maxConcurrentWrites
    ensures CoreInvariant(lim, StartOne(lim, s))
  {
    hide TakeCount, CombinedRecords, QueueInvariant, OrderInvariant, SettledBy, Dispatched, Unreleased, Rows;
    var count := TakeCount(s.pending, lim.maxBatchRows);
    var writes := s.pending[..count];
    BatchesAppend(s.batches, Batch(writes, CombinedRecords(writes), Running));
    StartOneKeepsQueue(lim, s);
    assert NonEmptyWrites(s.pending) by { QueueIsNonEmpty(lim, s); }
    StartOneKeepsOrder(lim, s);
  }

  lemma QueueIsNonEmpty(lim: Limits, s: State)
    requires QueueInvariant(lim, s)
    ensures NonEmptyWrites(s.pending)
  {
  }

  lemma StartOneKeepsQueue(lim: Limits, s: State)
    requires QueueInvariant(lim, s) && s.pending != []
    ensures QueueInvariant(lim, StartOne(lim, s))
  {
    hide TakeCount, CombinedRecords;
    var count := TakeCount(s.pending, lim.maxBatchRows);
    RowsSplit(s.pending, count);
    OneWriteLeavesNone(s.pending, count);
  }

  lemma StartOneKeepsOrder(lim: Limits, s: State)
    requires OrderInvariant(lim, s) && NonEmptyWrites(s.pending) && s.pending != []
    ensures OrderInvariant(lim, StartOne(lim, s))
  {
    hide TakeCount, CombinedRecords, Dispatched, Rows;
    var count := TakeCount(s.pending, lim.maxBatchRows);
    var writes, t := s.pending[..count], StartOne(lim, s);
    BatchIsLongestFittingPrefix(s.pending, lim.maxBatchRows);
    BatchesAppend(s.batches, Batch(writes, CombinedRecords(writes), Running));
    assert s.pending == writes + t.pending;
    assert Dispatched(t.batches) + t.pending == Dispatched(s.batches) + (writes + t.pending);
  }

  lemma OneWriteLeavesNone(pending: seq<Write>, count: nat)
    requires 1 <= count <= |pending|
    ensures |pending| == 1 ==> Rows(pending[count..]) == 0
  {
  }

  lemma {:induction false} StartLoopKeepsCore(lim: Limits, s: State)
    requires CoreInvariant(lim, s)
    ensures var t := StartLoop(lim, s);
            && CoreInvariant(lim, t)
            && t.closed == s.closed && t.scheduledFlush == s.scheduledFlush && t.closeWaiters == s.closeWaiters
            && (s.closed ==> t.pending == [] || t.activeWrites == lim.maxConcurrentWrites)
            && t.accepted == s.accepted && |t.pending| <= |s.pending|
            && (s.pending != [] && s.activeWrites < lim.maxConcurrentWrites ==> |t.pending| < |s.pending|)
    decreases |s.pending|
  {
    hide CoreInvariant, TakeCount;
    if s.activeWrites < lim.maxConcurrentWrites && s.pending != [] {
      StartOneKeepsCore(lim, s);
      StartLoopKeepsCore(lim, StartOne(lim, s));
    }
    assert CoreInvariant(lim, s) ==> s.activeWrites <= lim.maxConcurrentWrites by { ActiveBound(lim, s); }
  }

  lemma ActiveBound(lim: Limits, s: State)
    ensures CoreInvariant(lim, s) ==> 0 <= s.activeWrites <= lim.maxConcurrentWrites
  {
  }

  /** Starting writes with no timer set leaves the coordinator with its wakeup in place. */
  lemma StartAvailableKeeps(lim: Limits, s: State)
    requires CoreInvariant(lim, s) && s.scheduledFlush.None?
    ensures var t := StartAvailableWrites(lim, s);
            && CoreInvariant(lim, t) && WakeupInvariant(lim, t)
            && t.closed == s.closed && t.closeWaiters == s.closeWaiters
            && t.accepted == s.accepted && |t.pending| <= |s.pending|
            && (s.pending != [] && s.activeWrites < lim.maxConcurrentWrites ==> |t.pending| < |s.pending|)
            && (s.closed ==> t.scheduledFlush.None?)
  {
    hide StartLoop;
    StartLoopKeepsCore(lim, s);
  }

  lemma InsertKeepsInvariant(lim: Limits, s: State, records: seq<Log>)
    requires Invariant(lim, s)
    ensures Invariant(lim, InsertStep(lim, s, records).0)
  {
    hide StartAvailableWrites, Unreleased, Dispatched, SettledBy;
    if InsertStep(lim, s, records).1.Pending? {
      var write := Write(|s.accepted|, records);
      var t := s.(pending := s.pending + [write], queuedRows := s.queuedRows + |records|,
        accepted := s.accepted + [write]);
      RowsAppend(s.pending, [write]);
      assert [write][1..] == [];
      EmptyQueueHasNoRows(s.pending);
      assert t.accepted == Dispatched(t.batches) + t.pending;
      assert CoreInvariant(lim, t);
      if t.activeWrites < lim.maxConcurrentWrites && |t.pending| == 1 {
        StartAvailableKeeps(lim, t);
      }
    }
  }

  /**
   An insert with records is accepted, behind everything accepted before, if and only if the coordinator is
   open and no write waits or the waiting records and the new ones fit the queue. An insert without records
   is resolved at once, and one that is not accepted changes nothing.
   */
  lemma InsertIsAcceptedIff(lim: Limits, s: State, records: seq<Log>)
    requires Invariant(lim, s)
    ensures var (after, result) := InsertStep(lim, s, records);
            && (result == AlreadyResolved <==> records == [])
            && (result.Pending? <==>
                  && records != [] && !s.closed
                  && (s.pending == [] || |CombinedRecords(s.pending)| + |records| <= lim.maxQueuedRows))
            && (result.Pending? ==>
                  result.id == |s.accepted| && after.accepted == s.accepted + [Write(|s.accepted|, records)])
            && (!result.Pending? ==> after == s)
            && Enabled(s, Insert(records)) && Next(lim, s, Insert(records)) == after
  {
    hide StartLoop, TakeCount, Unreleased, Dispatched, SettledBy;
    EmptyQueueHasNoRows(s.pending);
    if InsertStep(lim, s, records).1.Pending? {
      var write := Write(|s.accepted|, records);
      StartLoopKeepsAccepted(lim, s.(pending := s.pending + [write], queuedRows := s.queuedRows + |records|,
                                     accepted := s.accepted + [write]));
    }
  }

  lemma {:induction false} StartLoopKeepsAccepted(lim: Limits, s: State)
    ensures StartLoop(lim, s).closed == s.closed && StartLoop(lim, s).accepted == s.accepted
    decreases |s.pending|
  {
    hide TakeCount;
    if s.activeWrites < lim.maxConcurrentWrites && s.pending != [] {
      StartLoopKeepsAccepted(lim, StartOne(lim, s));
    }
  }

  /**
   An accepted insert that finds no write waiting and a slot free is started at once, alone. Any other waits
   behind the writes that wait, and starts nothing.
   */
  lemma InsertStartsAtOnceIff(lim: Limits, s: State, records: seq<Log>)
    requires Invariant(lim, s) && InsertStep(lim, s, records).1.Pending?
    ensures var t, write := InsertStep(lim, s, records).0, Write(|s.accepted|, records);
            if s.pending == [] && s.activeWrites < lim.maxConcurrentWrites
            then t.pending == [] && t.batches == s.batches + [Batch([write], records, Running)]
            else t.pending == s.pending + [write] && t.batches == s.batches
  {
    hide Unreleased, Dispatched, SettledBy, CombinedRecords;
    var write := Write(|s.accepted|, records);
    if s.pending == [] && s.activeWrites < lim.maxConcurrentWrites {
      OneWriteIsTaken(lim, write);
      assert s.pending + [write] == [write];
      assert [write][..1] == [write] && [write][1..] == [];
    }
  }

  lemma OneWriteIsTaken(lim: Limits, write: Write)
    ensures TakeCount([write], lim.maxBatchRows) == 1
    ensures CombinedRecords([write]) == write.records
  {
    assert [write][1..] == [];
    assert CombinedRecords([]) == [] && write.records + [] == write.records;
  }

  /** An insert that finds a timer set leaves that timer running, or has the queue flushed at once. */
  lemma InsertNeverPostpones(lim: Limits, s: State, records: seq<Log>)
    requires Invariant(lim, s) && s.scheduledFlush.Some?
    ensures var t := InsertStep(lim, s, records).0;
            t.scheduledFlush == Some(0) || (t.scheduledFlush == s.scheduledFlush && t.timersSet == s.timersSet)
  {
    hide StartLoop, Unreleased, Dispatched, SettledBy;
  }

  /**
   Starting writes takes a second batch and more only while a whole batch waits, unless closing, and does not stop
   before a slot or a whole batch is missing; with a slot free it takes at least one.
   */
  lemma {:induction false} StartLoopIsEager(lim: Limits, s: State)
    requires CoreInvariant(lim, s)
    ensures var t := StartLoop(lim, s);
            && |s.batches| <= |t.batches| && t.batches[..|s.batches|] == s.batches
            && t.activeWrites - s.activeWrites == |t.batches| - |s.batches|
            && (|t.batches| == |s.batches| ==> t == s)
            && (|t.batches| == |s.batches| + 1 ==>
                  Rows(t.batches[|s.batches|].writes) + Rows(t.pending) == Rows(s.pending))
            && (!s.closed && |t.batches| >= |s.batches| + 2 ==>
                  Rows(t.batches[|t.batches| - 1].writes) + Rows(t.pending) >= lim.maxBatchRows)
            && (t.pending == [] || t.activeWrites == lim.maxConcurrentWrites
                || (!s.closed && Rows(t.pending) < lim.maxBatchRows && |t.batches| > |s.batches|))
    decreases |s.pending|
  {
    hide CoreInvariant, Rows, StartOne;
    CoreCounts(lim, s);
    if s.activeWrites < lim.maxConcurrentWrites && s.pending != [] {
      StartOneKeepsCore(lim, s);
      StartOneStarts(lim, s);
      var next := StartOne(lim, s);
      StartLoopIsEager(lim, next);
      CoreCounts(lim, next);
      var t := StartLoop(lim, next);
      assert t.batches[|s.batches|] == t.batches[..|next.batches|][|s.batches|] == next.batches[|s.batches|];
    }
  }

  lemma StartOneStarts(lim: Limits, s: State)
    requires s.pending != []
    ensures var t := StartOne(lim, s);
            && |t.batches| == |s.batches| + 1 && t.batches[..|s.batches|] == s.batches
            && t.activeWrites == s.activeWrites + 1 && t.closed == s.closed && |t.pending| < |s.pending|
            && Rows(t.batches[|s.batches|].writes) + Rows(t.pending) == Rows(s.pending)
  {
    hide TakeCount, CombinedRecords, Rows;
    RowsSplit(s.pending, TakeCount(s.pending, lim.maxBatchRows));
  }

  lemma CoreCounts(lim: Limits, s: State)
    requires CoreInvariant(lim, s)
    ensures s.queuedRows == Rows(s.pending) && 0 <= s.activeWrites <= lim.maxConcurrentWrites
  {
  }

  lemma EmptyQueueHasNoRows(pending: seq<Write>)
    requires NonEmptyWrites(pending)
    ensures Rows(pending) == 0 <==> pending == []
  {
    if pending != [] {
      assert pending[0] in pending;
    }
  }

  lemma TimerKeepsInvariant(lim: Limits, s: State)
    requires Invariant(lim, s) && s.scheduledFlush.Some?
    ensures Invariant(lim, TimerStep(lim, s))
    ensures |TimerStep(lim, s).pending| < |s.pending|
  {
    hide StartAvailableWrites, Unreleased, Dispatched, SettledBy;
    StartAvailableKeeps(lim, s.(scheduledFlush := None));
    StartedWritesAreActive(lim, s.(scheduledFlush := None));
  }

  /** Whatever starting writes takes from a queue, it leaves writes active. */
  lemma StartedWritesAreActive(lim: Limits, s: State)
    requires CoreInvariant(lim, s)
    requires s.pending != []
    ensures StartAvailableWrites(lim, s).activeWrites >= 1
  {
    StartLoopGrows(lim, s);
    if s.activeWrites == 0 {
      StartLoopGrows(lim, StartOne(lim, s));
    }
  }

  lemma {:induction false} StartLoopGrows(lim: Limits, s: State)
    ensures StartLoop(lim, s).activeWrites >= s.activeWrites
    decreases |s.pending|
  {
    hide TakeCount;
    if s.activeWrites < lim.maxConcurrentWrites && s.pending != [] {
      StartLoopGrows(lim, StartOne(lim, s));
    }
  }

  lemma SettleKeepsInvariant(lim: Limits, s: State, i: nat, outcome: Outcome)
    requires Invariant(lim, s) && i < |s.batches| && s.batches[i].phase.Running?
    ensures Invariant(lim, SettleStep(s, i, outcome))
  {
    hide Unreleased, Dispatched, SettledBy, Rows, SettlementsOf;
    BatchUpdate(s.batches, i, Settled(outcome));
    UpdateKeepsWholeBatches(lim, s.batches, i, Settled(outcome));
  }

  lemma UpdateKeepsWholeBatches(lim: Limits, batches: seq<Batch>, i: nat, phase: Phase)
    requires i < |batches| && forall b :: b in batches ==> IsWholeBatch(lim, b)
    ensures forall b :: b in batches[i := batches[i].(phase := phase)] ==> IsWholeBatch(lim, b)
  {
    assert batches[i] in batches;
  }

  lemma ReleaseKeepsInvariant(lim: Limits, s: State, i: nat)
    requires Invariant(lim, s) && i < |s.batches| && s.batches[i].phase.Settled?
    ensures Invariant(lim, ReleaseStep(lim, s, i))
  {
    hide Unreleased, Dispatched, SettledBy, Rows, SettlementsOf;
    BatchUpdate(s.batches, i, Released(s.batches[i].phase.outcome));
    UpdateKeepsWholeBatches(lim, s.batches, i, Released(s.batches[i].phase.outcome));
    UnreleasedIsPositive(s.batches, i);
  }

  lemma CloseKeepsInvariant(lim: Limits, s: State)
    requires Invariant(lim, s)
    ensures Invariant(lim, CloseStep(lim, s).0)
  {
    hide StartAvailableWrites, Unreleased, Dispatched, SettledBy, Rows;
    var t := s.(closed := true, scheduledFlush := None);
    StartAvailableKeeps(lim, t);
    if s.pending != [] {
      StartedWritesAreActive(lim, t);
    } else {
      NothingToStart(lim, t);
    }
  }

  /** A close closes, now and for ever; its promise is resolved exactly if all is drained, and waits otherwise. */
  lemma CloseWaitsUnlessDrained(lim: Limits, s: State)
    requires Invariant(lim, s)
    ensures var (t, resolved) := CloseStep(lim, s);
            && t.closed && t.accepted == s.accepted && Enabled(s, Close) && Next(lim, s, Close) == t
            && (resolved <==> IsDrained(t))
            && (IsDrained(t) <==> IsDrained(s))
            && t.closeWaiters == s.closeWaiters + if resolved then 0 else 1
  {
    hide StartAvailableWrites, Unreleased, Dispatched, SettledBy, Rows;
    var t := s.(closed := true, scheduledFlush := None);
    StartAvailableKeeps(lim, t);
    if s.pending != [] {
      StartedWritesAreActive(lim, t);
    } else {
      NothingToStart(lim, t);
    }
  }

  lemma NothingToStart(lim: Limits, s: State)
    requires s.pending == []
    ensures StartAvailableWrites(lim, s) == s
  {
  }

  /** Every event keeps the invariant. */
  lemma NextKeepsInvariant(lim: Limits, s: State, e: Event)
    requires Invariant(lim, s) && Enabled(s, e)
    ensures Invariant(lim, Next(lim, s, e))
  {
    hide Invariant, InsertStep, TimerStep, SettleStep, ReleaseStep, CloseStep;
    match e
    case Insert(records) => InsertKeepsInvariant(lim, s, records);
    case TimerFires => TimerKeepsInvariant(lim, s);
    case BatchSettles(i, outcome) => SettleKeepsInvariant(lim, s, i, outcome);
    case SlotReleased(i) => ReleaseKeepsInvariant(lim, s, i);
    case Close => CloseKeepsInvariant(lim, s);
  }

  /** The state after a run of events from a fresh coordinator, each enabled when it happens. */
  ghost predicate IsRun(lim: Limits, s: State, events: seq<Event>)
    decreases |events|
  {
    events == [] || (Enabled(s, events[0]) && IsRun(lim, Next(lim, s, events[0]), events[1..]))
  }

  ghost function AfterRun(lim: Limits, s: State, events: seq<Event>): State
    requires IsRun(lim, s, events)
    decreases |events|
  {
    if events == [] then s else AfterRun(lim, Next(lim, s, events[0]), events[1..])
  }

  lemma {:induction false} RunKeepsInvariant(lim: Limits, s: State, events: seq<Event>)
    requires Invariant(lim, s) && IsRun(lim, s, events)
    ensures Invariant(lim, AfterRun(lim, s, events))
    decreases |events|
  {
    hide Invariant, Next, Enabled;
    if events != [] {
      NextKeepsInvariant(lim, s, events[0]);
      RunKeepsInvariant(lim, Next(lim, s, events[0]), events[1..]);
    }
  }

  /** In every reachable state of the coordinator the invariant holds. */
  lemma ReachableStatesAreGood(lim: Limits, events: seq<Event>)
    requires AreLimits(lim) && IsRun(lim, INITIAL, events)
    ensures Invariant(lim, AfterRun(lim, INITIAL, events))
  {
    hide AfterRun, IsRun;
    RunKeepsInvariant(lim, INITIAL, events);
  }
}
