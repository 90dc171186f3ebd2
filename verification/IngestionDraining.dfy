/** No lost wakeup, continued: every run of timer, settle and release events drains the coordinator. */
module IngestionDraining {
  import opened Prelude
  import opened IngestionBatching

  /** The events the environment owes: the timer, the ends of inserts, their microtasks. */
  predicate IsProgress(e: Event) {
    e.TimerFires? || e.BatchSettles? || e.SlotReleased?
  }

  function PhaseRank(batches: seq<Batch>): nat {
    if batches == [] then 0
    else (match batches[0].phase case Running => 2 case Settled(_) => 1 case Released(_) => 0) + PhaseRank(batches[1..])
  }

  /** How many progress events can still happen at most. */
  function Rank(s: State): nat {
    3 * |s.pending| + PhaseRank(s.batches)
  }

  lemma {:induction false} RankAppend(batches: seq<Batch>, b: Batch)
    ensures PhaseRank(batches + [b]) == PhaseRank(batches) + PhaseRank([b])
  {
    if batches == [] {
      assert batches + [b] == [b];
    } else {
      RankAppend(batches[1..], b);
      assert (batches + [b])[1..] == batches[1..] + [b];
    }
  }

  lemma {:induction false} RankUpdate(batches: seq<Batch>, i: nat, phase: Phase)
    requires i < |batches|
    ensures var b := batches[i].(phase := phase);
            PhaseRank(batches[i := b]) == PhaseRank(batches) - PhaseRank([batches[i]]) + PhaseRank([b])
  {
    var b := batches[i].(phase := phase);
    assert [b][1..] == [] && [batches[i]][1..] == [];
    if i == 0 {
      assert batches[i := b][1..] == batches[1..];
    } else {
      RankUpdate(batches[1..], i - 1, phase);
      assert batches[i := b][1..] == batches[1..][i - 1 := b];
    }
  }

  lemma {:induction false} StartLoopLowersRank(lim: Limits, s: State)
    ensures var t := StartLoop(lim, s);
            && Rank(t) <= Rank(s)
            && (s.activeWrites < lim.maxConcurrentWrites && s.pending != [] ==> Rank(t) < Rank(s))
    decreases |s.pending|
  {
    if s.activeWrites < lim.maxConcurrentWrites && s.pending != [] {
      var t := StartOne(lim, s);
      RankAppend(s.batches, t.batches[|s.batches|]);
      assert Rank(t) < Rank(s);
      StartLoopLowersRank(lim, t);
    }
  }

  /** Each progress event lowers the rank, so at most Rank(s) of them can follow one another. */
  lemma ProgressLowersRank(lim: Limits, s: State, e: Event)
    requires Invariant(lim, s) && Enabled(s, e) && IsProgress(e)
    ensures Rank(Next(lim, s, e)) < Rank(s)
  {
    match e
    case TimerFires =>
      StartLoopLowersRank(lim, s.(scheduledFlush := None));
    case BatchSettles(i, outcome) =>
      RankUpdate(s.batches, i, Settled(outcome));
      assert [s.batches[i]][1..] == [];
    case SlotReleased(i) =>
      RankUpdate(s.batches, i, Released(s.batches[i].phase.outcome));
      assert [s.batches[i]][1..] == [];
    case _ =>
  }

  lemma {:induction false} ActiveBatchExists(batches: seq<Batch>)
    requires Unreleased(batches) >= 1
    ensures exists i :: 0 <= i < |batches| && !batches[i].phase.Released?
  {
    if batches[0].phase.Released? {
      ActiveBatchExists(batches[1..]);
      var i :| 0 <= i < |batches[1..]| && !batches[1..][i].phase.Released?;
      assert !batches[i + 1].phase.Released?;
    }
  }

  /** No stuck state: until everything is drained, some progress event is enabled. */
  lemma ProgressIsEnabled(lim: Limits, s: State)
    requires Invariant(lim, s) && !IsDrained(s)
    ensures exists e :: IsProgress(e) && Enabled(s, e)
  {
    if s.activeWrites == 0 {
      assert Enabled(s, TimerFires);
    } else {
      ActiveBatchExists(s.batches);
      var i :| 0 <= i < |s.batches| && !s.batches[i].phase.Released?;
      assert Enabled(s, BatchSettles(i, Fulfilled)) || Enabled(s, SlotReleased(i));
    }
  }

  /**
   Every run of timer, settle and release events is bounded by the rank, and where such a run can go
   no further the queue is empty and no batch is active.
   */
  lemma {:induction false} RunsDrain(lim: Limits, s: State, events: seq<Event>)
    requires Invariant(lim, s) && IsRun(lim, s, events) && forall e :: e in events ==> IsProgress(e)
    ensures |events| + Rank(AfterRun(lim, s, events)) <= Rank(s)
    ensures (forall e :: IsProgress(e) ==> !Enabled(AfterRun(lim, s, events), e)) ==>
      IsDrained(AfterRun(lim, s, events))
    decreases |events|
  {
    hide Invariant, Next, Enabled, Rank;
    if events == [] {
      if !IsDrained(s) {
        ProgressIsEnabled(lim, s);
      }
    } else {
      assert events[0] in events;
      NextKeepsInvariant(lim, s, events[0]);
      ProgressLowersRank(lim, s, events[0]);
      RunsDrain(lim, Next(lim, s, events[0]), events[1..]);
    }
  }
}
