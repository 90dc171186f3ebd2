/**
 The coordinator of src/modules/ingestion/batched-ingestion-repository.ts with its mutable variables and
 loops; each method is proved to take exactly the step of module IngestionBatching.
 */
module BatchedIngestionRepository {
  import opened Prelude
  import opened LogEntry
  import opened IngestionBatching

  /** `combineRecords`: the records of whole writes copied in order into one array. */
  method CombineRecords(writes: seq<Write>, rowCount: nat) returns (combined: array<Log>)
    requires rowCount == Rows(writes)
    ensures fresh(combined) && combined[..] == CombinedRecords(writes)
  {
    hide Rows, CombinedRecords;
    combined := new Log[rowCount];
    var index := 0;
    NothingCombined(writes);
    for w := 0 to |writes|
      invariant index == Rows(writes[..w]) <= rowCount
      invariant combined[..index] == CombinedRecords(writes[..w])
    {
      var records := writes[w].records;
      CombinedPrefix(writes, w);
      for r := 0 to |records|
        invariant index == Rows(writes[..w]) + r
        invariant combined[..index] == CombinedRecords(writes[..w]) + records[..r]
      {
        combined[index] := records[r];
        index := index + 1;
      }
      assert records[..|records|] == records;
    }
    assert writes[..|writes|] == writes;
    assert combined[..] == combined[..index];
  }

  lemma {:induction false} CombinedAppend(writes: seq<Write>, last: Write)
    ensures CombinedRecords(writes + [last]) == CombinedRecords(writes) + last.records
  {
    if writes == [] {
      assert writes + [last] == [last] && [last][1..] == [];
    } else {
      CombinedAppend(writes[1..], last);
      assert (writes + [last])[1..] == writes[1..] + [last];
    }
  }

  lemma NothingCombined(writes: seq<Write>)
    ensures Rows(writes[..0]) == 0 && CombinedRecords(writes[..0]) == []
  {
  }

  lemma CombinedPrefix(writes: seq<Write>, w: nat)
    requires w < |writes|
    ensures Rows(writes[..w + 1]) == Rows(writes[..w]) + |writes[w].records| <= Rows(writes)
    ensures CombinedRecords(writes[..w + 1]) == CombinedRecords(writes[..w]) + writes[w].records
  {
    RowsOfPrefix(writes, w);
    RowsSplit(writes, w + 1);
    CombinedAppend(writes[..w], writes[w]);
    assert writes[..w + 1] == writes[..w] + [writes[w]];
  }

  class Coordinator {
    const limits: Limits

    var pending: seq<Write>
    var queuedRows: int
    var activeWrites: int
    var scheduledFlush: Option<nat>
    var closed: bool
    var closeWaiters: nat

    // The promise chains that have been started, and the promises settled so far.
    var batches: seq<Batch>
    var settlements: seq<Settlement>

    // Every write whose promise has been handed out, and how often the timer was set.
    var accepted: seq<Write>
    var timersSet: nat

    ghost function Current(): State
      reads this
    {
      State(pending, queuedRows, activeWrites, scheduledFlush, closed, closeWaiters, accepted, batches, settlements,
            timersSet)
    }

    ghost predicate Valid()
      reads this
    {
      Invariant(limits, Current())
    }

    constructor (limits: Limits)
      requires AreLimits(limits)
      ensures Valid() && this.limits == limits && Current() == INITIAL
    {
      this.limits := limits;
      pending, queuedRows, activeWrites := [], 0, 0;
      scheduledFlush, closed, closeWaiters := None, false, 0;
      batches, settlements, accepted, timersSet := [], [], [], 0;
    }

    method TakeBatch() returns (writes: seq<Write>, rowCount: nat)
      requires queuedRows == Rows(pending)
      modifies `pending, `queuedRows
      ensures writes == old(pending)[..TakeCount(old(pending), limits.maxBatchRows)]
      ensures pending == old(pending)[|writes|..]
      ensures rowCount == Rows(writes) && queuedRows == old(queuedRows) - rowCount
    {
      writes, rowCount := [], 0;
      ghost var queue := pending;
      while |pending| > 0
        invariant |writes| <= |queue| && writes == queue[..|writes|] && pending == queue[|writes|..]
        invariant rowCount == Rows(writes) && queuedRows == old(queuedRows) - rowCount
        invariant TakeFrom(queue, |writes|, rowCount, limits.maxBatchRows) == TakeCount(queue, limits.maxBatchRows)
        decreases |pending|
      {
        var next := pending[0];
        if |writes| > 0 && rowCount + |next.records| > limits.maxBatchRows {
          break;
        }
        RowsOfPrefix(queue, |writes|);
        pending := pending[1..];
        writes := writes + [next];
        rowCount := rowCount + |next.records|;
        queuedRows := queuedRows - |next.records|;
        if rowCount >= limits.maxBatchRows {
          break;
        }
      }
    }

    method StartWrite(writes: seq<Write>, rowCount: nat)
      requires rowCount == Rows(writes)
      modifies `activeWrites, `batches
      ensures activeWrites == old(activeWrites) + 1
      ensures batches == old(batches) + [Batch(writes, CombinedRecords(writes), Running)]
    {
      activeWrites := activeWrites + 1;
      var records := CombineRecords(writes, rowCount);
      batches := batches + [Batch(writes, records[..], Running)];
    }

    /** A set timer is kept or made immediate, never postponed, and a write that could start is woken up. */
    method ScheduleFlushIn(delayMs: nat)
      modifies `scheduledFlush, `timersSet
      ensures old(scheduledFlush).Some? ==>
                scheduledFlush == Some(0) || (scheduledFlush == old(scheduledFlush) && timersSet == old(timersSet))
      ensures scheduledFlush != old(scheduledFlush) ==>
                scheduledFlush == Some(delayMs) && timersSet == old(timersSet) + 1
      ensures IsWakeable(limits, old(Current()), delayMs) ==> WakeupInvariant(limits, Current())
      ensures Current() == ScheduleFlush(limits, old(Current()), delayMs)
    {
      if |pending| == 0 || activeWrites >= limits.maxConcurrentWrites {
        return;
      }
      if scheduledFlush.Some? && delayMs != 0 {
        return;
      }
      scheduledFlush := Some(delayMs);
      timersSet := timersSet + 1;
    }

    method StartAvailable()
      requires queuedRows == Rows(pending)
      modifies `pending, `queuedRows, `activeWrites, `batches, `scheduledFlush, `timersSet
      ensures Current() == StartAvailableWrites(limits, old(Current()))
    {
      hide TakeCount, CombinedRecords, ScheduleFlush, IsWakeable, WakeupInvariant;
      while activeWrites < limits.maxConcurrentWrites && |pending| > 0
        invariant StartLoop(limits, Current()) == StartLoop(limits, old(Current()))
        invariant queuedRows == Rows(pending)
        decreases |pending|
      {
        ghost var before := Current();
        RowsSplit(pending, TakeCount(pending, limits.maxBatchRows));
        var writes, rowCount := TakeBatch();
        StartWrite(writes, rowCount);
        assert Current() == StartOne(limits, before);
        if !closed && queuedRows < limits.maxBatchRows {
          break;
        }
      }
      assert Current() == StartLoop(limits, old(Current()));
      if |pending| > 0 && activeWrites < limits.maxConcurrentWrites {
        ScheduleFlushIn(if closed || queuedRows >= limits.maxBatchRows then 0 else limits.flushDelayMs);
      }
    }

    /** The waiters of `close` are resolved all together, once the closed coordinator is drained and not before. */
    method SettleCloseWaiters()
      modifies `closeWaiters
      ensures closeWaiters == 0 || closeWaiters == old(closeWaiters)
      ensures closeWaiters < old(closeWaiters) && activeWrites >= 0 ==> closed && IsDrained(Current())
      ensures (old(closeWaiters) > 0 ==> closed) ==> CloseInvariant(Current())
      ensures Current() == SettleClose(old(Current()))
    {
      if !closed || |pending| > 0 || activeWrites > 0 {
        return;
      }
      closeWaiters := 0;
    }

    /** The public `insert`. */
    method Insert(records: seq<Log>) returns (result: InsertResult)
      requires Valid()
      modifies this
      ensures Valid()
      ensures result.Pending? <==>
                && records != [] && !old(closed)
                && (old(pending) == [] || |CombinedRecords(old(pending))| + |records| <= limits.maxQueuedRows)
      ensures result.Pending? ==> accepted == old(accepted) + [Write(|old(accepted)|, records)]
      ensures !result.Pending? ==> Current() == old(Current())
      ensures (Current(), result) == InsertStep(limits, old(Current()), records)
    {
      InsertKeepsInvariant(limits, Current(), records);
      InsertIsAcceptedIff(limits, Current(), records);
      hide Invariant, StartAvailableWrites, ScheduleFlush, Rows, IsWakeable, WakeupInvariant;
      if |records| == 0 {
        return AlreadyResolved;
      }
      if closed || (queuedRows > 0 && queuedRows + |records| > limits.maxQueuedRows) {
        return AlreadyRejected;
      }
      var write := Write(|accepted|, records);
      QueueIsCounted(limits, Current());
      RowsOfOneMore(pending, write);
      pending := pending + [write];
      queuedRows := queuedRows + |records|;
      accepted := accepted + [write];
      if activeWrites < limits.maxConcurrentWrites && |pending| == 1 {
        StartAvailable();
      } else {
        ScheduleFlushIn(if queuedRows >= limits.maxBatchRows then 0 else limits.flushDelayMs);
      }
      result := Pending(write.id);
    }

    /** The timer's callback. */
    method FlushTimerFires()
      requires Valid() && scheduledFlush.Some?
      modifies this
      ensures Valid() && Current() == TimerStep(limits, old(Current()))
    {
      TimerKeepsInvariant(limits, Current());
      QueueIsCounted(limits, Current());
      hide Invariant, StartAvailableWrites;
      scheduledFlush := None;
      StartAvailable();
    }

    /** The fulfilment or rejection handler of a started batch. */
    method BatchEnds(i: nat, outcome: Outcome)
      requires Valid() && i < |batches| && batches[i].phase.Running?
      modifies this
      ensures Valid() && Current() == SettleStep(old(Current()), i, outcome)
    {
      SettleKeepsInvariant(limits, Current(), i, outcome);
      hide Invariant;
      var writes := batches[i].writes;
      ghost var before := settlements;
      for w := 0 to |writes|
        invariant settlements == before + SettlementsOf(writes, outcome)[..w]
        invariant Current() == old(Current()).(settlements := settlements)
      {
        settlements := settlements + [Settlement(writes[w].id, outcome)];
      }
      assert SettlementsOf(writes, outcome)[..|writes|] == SettlementsOf(writes, outcome);
      batches := batches[i := batches[i].(phase := Settled(outcome))];
    }

    /** A slot is given back, and whoever waits for it is woken up. */
    method GiveBack(i: nat)
      requires i < |batches| && batches[i].phase.Settled?
      modifies `activeWrites, `batches, `scheduledFlush, `closeWaiters, `timersSet
      ensures Current() == ReleaseStep(limits, old(Current()), i)
    {
      hide ScheduleFlush, SettleClose, IsWakeable, WakeupInvariant, CloseInvariant, IsDrained, Rows;
      activeWrites := activeWrites - 1;
      batches := batches[i := batches[i].(phase := Released(batches[i].phase.outcome))];
      assert Current() == GiveSlotBack(old(Current()), i);
      hide GiveSlotBack;
      if |pending| > 0 {
        ScheduleFlushIn(if closed || queuedRows >= limits.maxBatchRows then 0 else limits.flushDelayMs);
      }
      SettleCloseWaiters();
    }

    /** The `finally` handler of a started batch. */
    method SlotIsReleased(i: nat)
      requires Valid() && i < |batches| && batches[i].phase.Settled?
      modifies this
      ensures Valid() && Current() == ReleaseStep(limits, old(Current()), i)
    {
      ReleaseKeepsInvariant(limits, Current(), i);
      hide Invariant, ReleaseStep;
      GiveBack(i);
    }

    /** `close`, whatever the state it finds. */
    method CloseAndStart() returns (resolved: bool)
      requires queuedRows == Rows(pending)
      modifies this
      ensures (Current(), resolved) == CloseStep(limits, old(Current()))
    {
      hide StartAvailableWrites, Rows;
      if closed && |pending| == 0 && activeWrites == 0 {
        return true;
      }
      closed := true;
      scheduledFlush := None;
      StartAvailable();
      if |pending| == 0 && activeWrites == 0 {
        return true;
      }
      closeWaiters := closeWaiters + 1;
      resolved := false;
    }

    /** The public `close`; the result says whether its promise is resolved already. */
    method Close() returns (resolved: bool)
      requires Valid()
      modifies this
      ensures Valid() && (Current(), resolved) == CloseStep(limits, old(Current()))
    {
      CloseKeepsInvariant(limits, Current());
      QueueIsCounted(limits, Current());
      hide Invariant, CloseStep;
      resolved := CloseAndStart();
    }
  }

  lemma RowsOfOneMore(writes: seq<Write>, last: Write)
    ensures Rows(writes + [last]) == Rows(writes) + |last.records|
  {
    RowsAppend(writes, [last]);
    assert [last][1..] == [];
  }

  lemma QueueIsCounted(lim: Limits, s: State)
    requires Invariant(lim, s)
    ensures s.queuedRows == Rows(s.pending)
  {
  }
}
