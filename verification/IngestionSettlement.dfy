/** Exactly once: what the settlements of the coordinator say of every accepted write, and what close means. */
module IngestionSettlement {
  import opened Prelude
  import opened LogEntry
  import opened IngestionBatching

  ghost predicate NumberedFrom(writes: seq<Write>, first: nat) {
    forall i :: 0 <= i < |writes| ==> writes[i].id == first + i
  }

  lemma {:induction false} NoForeignSettlement(batches: seq<Batch>, first: nat, x: Settlement)
    requires NumberedFrom(Dispatched(batches), first)
    requires x.id < first || x.id >= first + |Dispatched(batches)|
    ensures SettledBy(batches)[x] == 0
  {
    if batches != [] {
      NumberedSplit(batches[0].writes, Dispatched(batches[1..]), first);
      NoForeignSettlement(batches[1..], first + |batches[0].writes|, x);
      if !batches[0].phase.Running? {
        forall y | y in SettlementsOf(batches[0].writes, batches[0].phase.outcome) ensures y != x {
        }
      }
    }
  }

  lemma NumberedSplit(a: seq<Write>, b: seq<Write>, first: nat)
    requires NumberedFrom(a + b, first)
    ensures NumberedFrom(a, first) && NumberedFrom(b, first + |a|)
  {
    assert forall i :: 0 <= i < |a| ==> a[i] == (a + b)[i];
    assert forall i :: 0 <= i < |b| ==> b[i] == (a + b)[|a| + i];
  }

  lemma {:induction false} SettlementsAreDistinct(writes: seq<Write>, first: nat, k: nat, outcome: Outcome,
                                                  x: Settlement)
    requires NumberedFrom(writes, first) && k < |writes| && x.id == writes[k].id
    ensures multiset(SettlementsOf(writes, outcome))[x] == if x.outcome == outcome then 1 else 0
  {
    var all := SettlementsOf(writes, outcome);
    assert all == all[..k] + ([all[k]] + all[k + 1..]);
    assert forall y :: y in all[..k] ==> y.id < first + k;
    assert forall y :: y in all[k + 1..] ==> y.id > first + k;
    assert multiset(all) == multiset(all[..k]) + (multiset{all[k]} + multiset(all[k + 1..]));
  }

  lemma {:induction false} SettledOnce(batches: seq<Batch>, first: nat, j: nat, k: nat, outcome: Outcome)
    requires NumberedFrom(Dispatched(batches), first)
    requires j < |batches| && k < |batches[j].writes|
    ensures SettledBy(batches)[Settlement(batches[j].writes[k].id, outcome)]
         == if !batches[j].phase.Running? && batches[j].phase.outcome == outcome then 1 else 0
  {
    hide SettlementsOf;
    var writes, rest := batches[0].writes, Dispatched(batches[1..]);
    var x := Settlement(batches[j].writes[k].id, outcome);
    NumberedSplit(writes, rest, first);
    if j == 0 {
      NoForeignSettlement(batches[1..], first + |writes|, x);
      if !batches[0].phase.Running? {
        SettlementsAreDistinct(writes, first, k, batches[0].phase.outcome, x);
      }
    } else {
      SettledOnce(batches[1..], first + |writes|, j - 1, k, outcome);
      IdInTail(batches[1..], first + |writes|, j - 1, k);
      if !batches[0].phase.Running? {
        NoForeignSettlement([batches[0]], first, x);
        assert [batches[0]][1..] == [] && Dispatched([batches[0]]) == writes + [] == writes;
      }
    }
  }

  lemma {:induction false} IdInTail(batches: seq<Batch>, first: nat, j: nat, k: nat)
    requires NumberedFrom(Dispatched(batches), first)
    requires j < |batches| && k < |batches[j].writes|
    ensures first <= batches[j].writes[k].id < first + |Dispatched(batches)|
  {
    NumberedSplit(batches[0].writes, Dispatched(batches[1..]), first);
    if j > 0 {
      IdInTail(batches[1..], first + |batches[0].writes|, j - 1, k);
    }
  }

  /**
   Exactly once: in every good state a dispatched write's promise has been settled once with the
   outcome of its own batch if that batch has ended, and not at all otherwise.
   */
  lemma DispatchedSettlesOnce(lim: Limits, s: State, j: nat, k: nat, outcome: Outcome)
    requires Invariant(lim, s) && j < |s.batches| && k < |s.batches[j].writes|
    ensures multiset(s.settlements)[Settlement(s.batches[j].writes[k].id, outcome)]
         == if !s.batches[j].phase.Running? && s.batches[j].phase.outcome == outcome then 1 else 0
  {
    hide SettledBy, Rows, CombinedRecords;
    NumberedSplit(Dispatched(s.batches), s.pending, 0);
    SettledOnce(s.batches, 0, j, k, outcome);
  }

  /** A write still in the queue has not been settled. */
  lemma QueuedIsUnsettled(lim: Limits, s: State, k: nat, outcome: Outcome)
    requires Invariant(lim, s) && k < |s.pending|
    ensures multiset(s.settlements)[Settlement(s.pending[k].id, outcome)] == 0
  {
    hide SettledBy, Rows, CombinedRecords;
    NumberedSplit(Dispatched(s.batches), s.pending, 0);
    NoForeignSettlement(s.batches, 0, Settlement(s.pending[k].id, outcome));
  }

  lemma {:induction false} PlaceInBatches(batches: seq<Batch>, n: nat)
    requires n < |Dispatched(batches)|
    ensures exists j, k ::
      0 <= j < |batches| && 0 <= k < |batches[j].writes| && batches[j].writes[k] == Dispatched(batches)[n]
  {
    var size := |batches[0].writes|;
    if n < size {
      assert batches[0].writes[n] == Dispatched(batches)[n];
    } else {
      PlaceInBatches(batches[1..], n - size);
      var j, k :| 0 <= j < |batches[1..]| && 0 <= k < |batches[1..][j].writes| &&
        batches[1..][j].writes[k] == Dispatched(batches[1..])[n - size];
      assert batches[j + 1].writes[k] == Dispatched(batches)[n];
    }
  }

  lemma {:induction false} NoneActive(batches: seq<Batch>)
    requires Unreleased(batches) == 0
    ensures forall b :: b in batches ==> b.phase.Released?
  {
    if batches != [] {
      NoneActive(batches[1..]);
    }
  }

  /** Every accepted write has been settled, exactly once. */
  ghost predicate AllSettled(s: State) {
    forall n :: 0 <= n < |s.accepted| ==> IsSettledOnce(s, s.accepted[n].id)
  }

  ghost predicate IsSettledOnce(s: State, id: nat) {
    exists outcome :: multiset(s.settlements)[Settlement(id, outcome)] == 1
  }

  lemma DrainedMeansSettled(lim: Limits, s: State)
    requires Invariant(lim, s) && IsDrained(s)
    ensures AllSettled(s)
  {
    hide Invariant;
    forall n | 0 <= n < |s.accepted|
      ensures IsSettledOnce(s, s.accepted[n].id)
    {
      var outcome := DrainedOutcome(lim, s, n);
    }
  }

  lemma DrainedOutcome(lim: Limits, s: State, n: nat) returns (outcome: Outcome)
    requires Invariant(lim, s) && IsDrained(s) && n < |s.accepted|
    ensures multiset(s.settlements)[Settlement(s.accepted[n].id, outcome)] == 1
  {
    hide SettledBy, Rows, CombinedRecords;
    NoneActive(s.batches);
    assert s.accepted == Dispatched(s.batches);
    PlaceInBatches(s.batches, n);
    var j, k :| 0 <= j < |s.batches| && 0 <= k < |s.batches[j].writes| &&
      s.batches[j].writes[k] == Dispatched(s.batches)[n];
    assert s.batches[j] in s.batches;
    outcome := s.batches[j].phase.outcome;
    DispatchedSettlesOnce(lim, s, j, k, outcome);
  }

  /**
   A close promise resolves, at once or later when a slot is released, only when every write ever
   accepted has settled and the coordinator is closed.
   */
  lemma ResolvedCloseMeansSettled(lim: Limits, s: State, e: Event)
    requires Invariant(lim, s) && Enabled(s, e)
    requires (e.Close? && CloseStep(lim, s).1) || Next(lim, s, e).closeWaiters < s.closeWaiters
    ensures Next(lim, s, e).closed && AllSettled(Next(lim, s, e))
  {
    hide Invariant, AllSettled;
    var t := Next(lim, s, e);
    NextKeepsInvariant(lim, s, e);
    assert t.closed && IsDrained(t) by { ResolvedCloseIsDrained(lim, s, e); }
    DrainedMeansSettled(lim, t);
  }

  lemma ResolvedCloseIsDrained(lim: Limits, s: State, e: Event)
    requires Invariant(lim, s) && Enabled(s, e)
    requires (e.Close? && CloseStep(lim, s).1) || Next(lim, s, e).closeWaiters < s.closeWaiters
    ensures Next(lim, s, e).closed && IsDrained(Next(lim, s, e))
  {
    hide StartLoop, Unreleased, Dispatched, SettledBy, Rows;
    match e
    case Insert(records) =>
      StartLoopKeepsWaiters(lim, s, records);
    case TimerFires =>
      StartLoopKeepsFlags(lim, s.(scheduledFlush := None));
    case BatchSettles(_, _) =>
    case SlotReleased(_) =>
    case Close =>
      StartLoopKeepsFlags(lim, s.(closed := true, scheduledFlush := None));
  }

  lemma {:induction false} StartLoopKeepsFlags(lim: Limits, s: State)
    ensures StartLoop(lim, s).closed == s.closed && StartLoop(lim, s).closeWaiters == s.closeWaiters
    decreases |s.pending|
  {
    hide TakeCount;
    if s.activeWrites < lim.maxConcurrentWrites && s.pending != [] {
      StartLoopKeepsFlags(lim, StartOne(lim, s));
    }
  }

  lemma StartLoopKeepsWaiters(lim: Limits, s: State, records: seq<Log>)
    ensures InsertStep(lim, s, records).0.closeWaiters == s.closeWaiters
  {
    hide StartLoop;
    var write := Write(|s.accepted|, records);
    StartLoopKeepsFlags(lim,
      s.(pending := s.pending + [write], queuedRows := s.queuedRows + |records|, accepted := s.accepted + [write]));
  }

  /** Once closed, the coordinator stays closed and accepts no write: an insert changes nothing. */
  lemma ClosedAcceptsNothing(lim: Limits, s: State, e: Event)
    requires s.closed && Enabled(s, e)
    ensures Next(lim, s, e).closed && Next(lim, s, e).accepted == s.accepted
    ensures e.Insert? ==> Next(lim, s, e) == s && !InsertStep(lim, s, e.records).1.Pending?
  {
    hide StartLoop;
    StartLoopKeepsAccepted(lim, s.(scheduledFlush := None));
    StartLoopKeepsAccepted(lim, s.(closed := true, scheduledFlush := None));
  }
}
