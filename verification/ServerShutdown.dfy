/**
 closeDatabase of src/server.ts: stop the retention service, then close the ingestion coordinator, then
 end the database pool, while both go on reacting to their own events.
 */
module ServerShutdown {
  import opened Prelude
  import R = RetentionScheduling
  import B = IngestionBatching
  import S = IngestionSettlement
  import D = IngestionDraining

  datatype Shutdown = Serving | StoppingRetention | ClosingBatcher(resolved: bool) | PoolEnded

  datatype World = World(retention: R.State, batching: B.State, shutdown: Shutdown)

  const START := World(R.INITIAL, B.INITIAL, Serving)

  datatype Event =
    | Retention(r: R.Event)
    | Batching(b: B.Event)
    | BeginShutdown(cancelling: R.Cancelling)
    | RetentionStopped
    | EndPool

  predicate Enabled(w: World, e: Event) {
    match e
    case Retention(r) => R.Enabled(w.retention, r)
    case Batching(b) => B.Enabled(w.batching, b)
    case BeginShutdown(_) => w.shutdown.Serving?
    case RetentionStopped => w.shutdown.StoppingRetention? && w.retention.stopPromise.StopSettled?
    case EndPool => w.shutdown == ClosingBatcher(true)
  }

  /** The close promise awaited here resolves when the coordinator lets its waiters go. */
  function Next(lim: B.Limits, w: World, e: Event): World
    requires Enabled(w, e)
  {
    match e
    case Retention(r) => w.(retention := R.Next(w.retention, r))
    case Batching(b) =>
      var after := B.Next(lim, w.batching, b);
      w.(batching := after,
         shutdown := if w.shutdown == ClosingBatcher(false) && after.closeWaiters < w.batching.closeWaiters
                     then ClosingBatcher(true) else w.shutdown)
    case BeginShutdown(cancelling) =>
      w.(retention := R.StopStep(w.retention, cancelling), shutdown := StoppingRetention)
    case RetentionStopped =>
      var (after, resolved) := B.CloseStep(lim, w.batching);
      w.(batching := after, shutdown := ClosingBatcher(resolved))
    case EndPool => w.(shutdown := PoolEnded)
  }

  ghost predicate OrderInvariant(w: World) {
    match w.shutdown
    case Serving => true
    case StoppingRetention => w.retention.stopping
    case ClosingBatcher(resolved) =>
      && w.retention.stopPromise.StopSettled? && w.batching.closed
      && (if resolved then B.IsDrained(w.batching) else w.batching.closeWaiters > 0)
    case PoolEnded =>
      w.retention.stopPromise.StopSettled? && w.batching.closed && B.IsDrained(w.batching)
  }

  ghost predicate Invariant(lim: B.Limits, w: World) {
    R.Invariant(w.retention) && B.Invariant(lim, w.batching) && OrderInvariant(w)
  }

  /** A closed and drained coordinator has nothing left to do, and no event changes it. */
  lemma DrainedIsFinal(lim: B.Limits, s: B.State, e: B.Event)
    requires B.Invariant(lim, s) && s.closed && B.IsDrained(s) && B.Enabled(s, e)
    ensures B.Next(lim, s, e) == s
  {
    S.NoneActive(s.batches);
    S.ClosedAcceptsNothing(lim, s, e);
  }

  lemma StoppedStays(s: R.State, e: R.Event)
    requires R.Invariant(s) && s.stopPromise.StopSettled? && R.Enabled(s, e)
    ensures R.Next(s, e).stopPromise.StopSettled? && R.Next(s, e).runs == s.runs
  {
  }

  /** A close that does not resolve at once leaves a waiter; a coordinator event keeps it or lets it go. */
  lemma CloseLeavesWaiter(lim: B.Limits, s: B.State)
    requires B.Invariant(lim, s)
    ensures var (after, resolved) := B.CloseStep(lim, s);
            after.closed && (if resolved then B.IsDrained(after) else after.closeWaiters > 0)
  {
    hide B.StartLoop, B.Invariant;
    S.StartLoopKeepsFlags(lim, s.(closed := true, scheduledFlush := None));
  }

  lemma BatchingKeepsOrder(lim: B.Limits, w: World, b: B.Event)
    requires Invariant(lim, w) && B.Enabled(w.batching, b)
    ensures OrderInvariant(Next(lim, w, Batching(b)))
  {
    hide B.Invariant, B.Next, R.Invariant;
    if w.shutdown.ClosingBatcher? || w.shutdown.PoolEnded? {
      S.ClosedAcceptsNothing(lim, w.batching, b);
      if B.IsDrained(w.batching) {
        DrainedIsFinal(lim, w.batching, b);
      }
      if B.Next(lim, w.batching, b).closeWaiters < w.batching.closeWaiters {
        S.ResolvedCloseIsDrained(lim, w.batching, b);
      }
    }
  }

  lemma NextKeepsInvariant(lim: B.Limits, w: World, e: Event)
    requires Invariant(lim, w) && Enabled(w, e)
    ensures Invariant(lim, Next(lim, w, e))
  {
    hide B.Invariant, B.Next, B.CloseStep, R.Invariant, R.Next, R.StopStep;
    match e
    case Retention(r) =>
      R.NextKeepsInvariant(w.retention, r);
      RetentionKeepsOrder(w, r);
    case Batching(b) =>
      B.NextKeepsInvariant(lim, w.batching, b);
      BatchingKeepsOrder(lim, w, b);
    case BeginShutdown(cancelling) => StopKeeps(w.retention, cancelling);
    case RetentionStopped =>
      CloseLeavesWaiter(lim, w.batching);
      CloseKeeps(lim, w.batching);
    case EndPool =>
  }

  lemma StopKeeps(s: R.State, cancelling: R.Cancelling)
    requires R.Invariant(s)
    ensures R.Invariant(R.StopStep(s, cancelling)) && R.StopStep(s, cancelling).stopping
  {
    R.NextKeepsInvariant(s, R.Stop(cancelling));
  }

  lemma CloseKeeps(lim: B.Limits, s: B.State)
    requires B.Invariant(lim, s)
    ensures B.Invariant(lim, B.CloseStep(lim, s).0)
  {
    hide B.Invariant, B.CloseStep;
    B.NextKeepsInvariant(lim, s, B.Close);
  }

  lemma RetentionKeepsOrder(w: World, r: R.Event)
    requires R.Invariant(w.retention) && OrderInvariant(w) && R.Enabled(w.retention, r)
    ensures OrderInvariant(w.(retention := R.Next(w.retention, r)))
  {
    if w.retention.stopPromise.StopSettled? {
      StoppedStays(w.retention, r);
    }
  }

  ghost predicate IsRun(lim: B.Limits, w: World, events: seq<Event>)
    decreases |events|
  {
    events == [] || (Enabled(w, events[0]) && IsRun(lim, Next(lim, w, events[0]), events[1..]))
  }

  ghost function AfterRun(lim: B.Limits, w: World, events: seq<Event>): World
    requires IsRun(lim, w, events)
    decreases |events|
  {
    if events == [] then w else AfterRun(lim, Next(lim, w, events[0]), events[1..])
  }

  /** Nothing needs the pool any more: no run is in progress and every accepted write has settled. */
  ghost predicate PoolIsIdle(w: World) {
    && (forall i :: 0 <= i < |w.retention.runs| ==> w.retention.runs[i].phase.Ended?)
    && (forall b :: b in w.batching.batches ==> b.phase.Released?)
    && w.batching.pending == []
    && S.AllSettled(w.batching)
  }

  lemma EndedPoolIsIdle(lim: B.Limits, w: World)
    requires Invariant(lim, w) && w.shutdown.PoolEnded?
    ensures PoolIsIdle(w)
  {
    hide S.AllSettled;
    assert w.retention.activeRun.None?;
    S.NoneActive(w.batching.batches);
    S.DrainedMeansSettled(lim, w.batching);
  }

  /**
   The pool is ended last: however retention, ingestion and shutdown events interleave, whenever the pool
   has been ended no retention run is in progress and every write ever accepted has settled.
   */
  lemma {:induction false} PoolEndsLast(lim: B.Limits, w: World, events: seq<Event>)
    requires Invariant(lim, w) && IsRun(lim, w, events)
    ensures Invariant(lim, AfterRun(lim, w, events))
    ensures AfterRun(lim, w, events).shutdown.PoolEnded? ==> PoolIsIdle(AfterRun(lim, w, events))
    decreases |events|
  {
    hide Invariant, PoolIsIdle, Next, Enabled;
    if events == [] {
      if w.shutdown.PoolEnded? {
        EndedPoolIsIdle(lim, w);
      }
    } else {
      NextKeepsInvariant(lim, w, events[0]);
      PoolEndsLast(lim, Next(lim, w, events[0]), events[1..]);
    }
  }

  lemma EndedPoolStep(lim: B.Limits, w: World, e: Event)
    requires Invariant(lim, w) && w.shutdown.PoolEnded? && Enabled(w, e)
    ensures Next(lim, w, e).shutdown.PoolEnded?
    ensures Next(lim, w, e).batching == w.batching && Next(lim, w, e).retention.runs == w.retention.runs
  {
    hide B.Invariant, B.Next, R.Invariant, R.Next;
    if e.Retention? {
      StoppedStays(w.retention, e.r);
    } else if e.Batching? {
      DrainedIsFinal(lim, w.batching, e.b);
    }
  }

  /** And from then on nothing uses it: no run begins, no batch starts, no write is accepted. */
  lemma {:induction false} EndedPoolIsNeverUsed(lim: B.Limits, w: World, events: seq<Event>)
    requires Invariant(lim, w) && w.shutdown.PoolEnded? && IsRun(lim, w, events)
    ensures AfterRun(lim, w, events).batching == w.batching
    ensures AfterRun(lim, w, events).retention.runs == w.retention.runs
    decreases |events|
  {
    hide Invariant, Next, Enabled;
    if events != [] {
      EndedPoolStep(lim, w, events[0]);
      NextKeepsInvariant(lim, w, events[0]);
      EndedPoolIsNeverUsed(lim, Next(lim, w, events[0]), events[1..]);
    }
  }

  lemma StartIsGood(lim: B.Limits)
    requires B.AreLimits(lim)
    ensures Invariant(lim, START)
  {
  }

  // ---------------------------------------------------------------- a shutdown ends

  function StageRank(shutdown: Shutdown): nat {
    match shutdown
    case Serving => 4
    case StoppingRetention => 3
    case ClosingBatcher(resolved) => if resolved then 1 else 2
    case PoolEnded => 0
  }

  function InnerRank(w: World): nat {
    match w.shutdown
    case StoppingRetention => R.StopRank(w.retention)
    case ClosingBatcher(_) => D.Rank(w.batching)
    case _ => 0
  }

  predicate IsCloser(w: World, t: World) {
    || StageRank(t.shutdown) < StageRank(w.shutdown)
    || (StageRank(t.shutdown) == StageRank(w.shutdown) && InnerRank(t) < InnerRank(w))
  }

  /** A shutdown can be begun, and can always move on, as far as it lies with the two components and the pool. */
  lemma ShutdownIsNeverStuck(lim: B.Limits, w: World) returns (e: Event)
    requires Invariant(lim, w) && !w.shutdown.PoolEnded?
    ensures Enabled(w, e) && IsCloser(w, Next(lim, w, e))
  {
    hide B.Invariant, B.Next, R.Invariant, R.Next, D.Rank, R.StopRank;
    match w.shutdown
    case Serving => e := BeginShutdown(R.Cancelled);
    case StoppingRetention =>
      if w.retention.stopPromise.StopSettled? {
        e := RetentionStopped;
      } else {
        StopIsAwaited(w.retention);
        var r := R.StopIsNeverStuck(w.retention, R.Armed);
        e := Retention(r);
      }
    case ClosingBatcher(resolved) =>
      if resolved {
        e := EndPool;
      } else {
        WaitersAreNotDrained(lim, w.batching);
        D.ProgressIsEnabled(lim, w.batching);
        var b :| D.IsProgress(b) && B.Enabled(w.batching, b);
        D.ProgressLowersRank(lim, w.batching, b);
        e := Batching(b);
      }
  }

  lemma StopIsAwaited(s: R.State)
    requires R.Invariant(s) && s.stopping && !s.stopPromise.StopSettled?
    ensures s.stopPromise.Awaiting?
  {
  }

  lemma WaitersAreNotDrained(lim: B.Limits, s: B.State)
    requires B.Invariant(lim, s) && s.closeWaiters > 0
    ensures !B.IsDrained(s)
  {
  }

  /** From every state a shutdown can be brought to its end, the pool ended. */
  lemma {:induction false} ShutdownCompletes(lim: B.Limits, w: World) returns (events: seq<Event>)
    requires Invariant(lim, w)
    ensures IsRun(lim, w, events) && AfterRun(lim, w, events).shutdown.PoolEnded?
    decreases StageRank(w.shutdown), InnerRank(w)
  {
    hide Invariant, Next, Enabled, StageRank, InnerRank;
    if w.shutdown.PoolEnded? {
      events := [];
    } else {
      var e := ShutdownIsNeverStuck(lim, w);
      var t := Next(lim, w, e);
      NextKeepsInvariant(lim, w, e);
      var more := ShutdownCompletes(lim, t);
      events := [e] + more;
      assert events[1..] == more;
    }
  }
}
