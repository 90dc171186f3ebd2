/** What a completed migration run means for every later one, among any number of interleaved runners. */
module MigrationHistory {
  import opened Prelude
  import opened MigrationRunner

  lemma {:induction false} MismatchBehind(files: seq<Migration>, a: seq<Row>, b: seq<Row>)
    requires FirstMismatch(files, a).None?
    ensures FirstMismatch(files, a + b) == FirstMismatch(files, b)
  {
    hide Mismatch;
    if a == [] {
      assert a + b == b;
    } else {
      MismatchBehind(files, a[1..], b);
      assert (a + b)[1..] == a[1..] + b;
    }
  }

  lemma AppliedStays(history: seq<Row>, later: seq<Row>, version: nat)
    requires history <= later && IsApplied(history, version)
    ensures IsApplied(later, version)
  {
    var i :| 0 <= i < |history| && history[i].version == version;
    assert later[i].version == version;
  }

  lemma {:induction false} NotAppliedShrinks(files: seq<Migration>, history: seq<Row>, later: seq<Row>)
    requires history <= later && NotApplied(files, history) == []
    ensures NotApplied(files, later) == []
  {
    hide IsApplied;
    if files != [] {
      NotAppliedShrinks(files[1..], history, later);
      AppliedStays(history, later, files[0].row.version);
    }
  }

  /**
   After a run over all its pending migrations, whatever rows are appended later: a run with the same files
   has nothing pending, unless one of the later rows does not match the files, and then it reports that one.
   */
  lemma CompletedRunHoldsForever(files: seq<Migration>, base: seq<Row>, later: seq<Row>)
    requires IsPlan(files) && FindPending(files, base).PendingMigrations?
    requires base + RowsOf(FindPending(files, base).pending) <= later
    ensures var done := base + RowsOf(FindPending(files, base).pending);
            FindPending(files, later) ==
              if FirstMismatch(files, later[|done|..]).Some? then FirstMismatch(files, later[|done|..]).value
                else PendingMigrations([])
  {
    var done := base + RowsOf(FindPending(files, base).pending);
    CompletedRunLeavesNothing(files, base);
    hide FirstMismatch, NotApplied, RowsOf;
    assert later == done + later[|done|..];
    MismatchBehind(files, done, later[|done|..]);
    NotAppliedShrinks(files, done, later);
  }

  // ---------------------------------------------------------------- runners that read later

  /** The history only grows, a runner's files never change, and it reads the history once, as it is then. */
  lemma StepReads(w: World, e: Event, j: nat)
    requires Invariant(w) && Enabled(w, e) && j < |w.runners|
    ensures var after := Next(w, e);
            && |after.runners| == |w.runners| && w.history <= after.history
            && after.runners[j].files == w.runners[j].files
            && (w.runners[j].hasRead ==> after.runners[j].hasRead && after.runners[j].base == w.runners[j].base)
            && (!w.runners[j].hasRead && after.runners[j].hasRead ==> after.runners[j].base == w.history)
  {
    OtherRunnersStay(w, e, j);
    if j == e.runner {
      OwnStepReads(w, e);
    }
  }

  lemma OtherRunnersStay(w: World, e: Event, j: nat)
    requires Enabled(w, e) && j < |w.runners|
    ensures |Next(w, e).runners| == |w.runners| && w.history <= Next(w, e).history
    ensures j != e.runner ==> Next(w, e).runners[j] == w.runners[j]
  {
    hide FindPending, HasRoomFor, StatementStep, AfterError, NextApply;
  }

  predicate HasSameReading(r: Runner, q: Runner) {
    q.files == r.files && q.hasRead == r.hasRead && q.base == r.base
  }

  lemma StatementReadsNothing(r: Runner, reply: Reply)
    ensures HasSameReading(r, StatementStep(r, reply))
  {
    hide AfterError;
  }

  lemma LockStepsReadNothing(w: World, i: nat, reply: Reply)
    requires i < |w.runners|
    ensures HasSameReading(w.runners[i], TryLockStep(w, i, reply).runners[i])
    ensures HasSameReading(w.runners[i], UnlockStep(w, i, reply).runners[i])
  {
  }

  lemma CommitsReadNothing(w: World, i: nat, reply: Reply)
    requires i < |w.runners|
    ensures HasSameReading(w.runners[i], InitCommitStep(w, i, reply).runners[i])
    ensures HasSameReading(w.runners[i], CommitStep(w, i, reply).runners[i])
  {
    hide NextApply;
  }

  lemma ReadingReadsHistory(w: World, i: nat, reply: Reply)
    requires i < |w.runners| && !w.runners[i].hasRead
    ensures var r, q := w.runners[i], ReadHistoryStep(w, i, reply).runners[i];
            q.files == r.files && (q.hasRead ==> q.base == w.history)
  {
    hide NextApply, FindPending;
  }

  lemma OwnStepReads(w: World, e: Event)
    requires Invariant(w) && Enabled(w, e)
    ensures var r, q := w.runners[e.runner], Next(w, e).runners[e.runner];
            && q.files == r.files
            && (r.hasRead ==> q.hasRead && q.base == r.base)
            && (!r.hasRead && q.hasRead ==> q.base == w.history)
  {
    var i, r := e.runner, w.runners[e.runner];
    ReadingComesFirst(w, i);
    hide Invariant, CanSucceed, StatementStep, TryLockStep, UnlockStep, InitCommitStep, CommitStep, ReadHistoryStep;
    if e.Step? {
      StatementReadsNothing(r, e.reply);
      LockStepsReadNothing(w, i, e.reply);
      CommitsReadNothing(w, i, e.reply);
      if r.place.ReadHistory? {
        ReadingReadsHistory(w, i, e.reply);
      }
    }
  }

  lemma ReadingComesFirst(w: World, i: nat)
    requires Invariant(w) && i < |w.runners|
    ensures w.runners[i].place.ReadHistory? ==> !w.runners[i].hasRead
  {
    LocalTransaction(w, i);
    hide FindPending, Consistent, Exclusive, RowsOf;
  }

  lemma {:induction false} RunReads(w: World, events: seq<Event>, j: nat)
    requires Invariant(w) && IsRun(w, events) && j < |w.runners|
    ensures var after := AfterRun(w, events);
            && Invariant(after) && |after.runners| == |w.runners| && w.history <= after.history
            && after.runners[j].files == w.runners[j].files
            && (w.runners[j].hasRead ==> after.runners[j].hasRead && after.runners[j].base == w.runners[j].base)
            && (!w.runners[j].hasRead && after.runners[j].hasRead ==> w.history <= after.runners[j].base)
    decreases |events|
  {
    if events == [] {
    } else {
      hide Invariant, Next, Enabled;
      NextKeepsInvariant(w, events[0]);
      StepReads(w, events[0], j);
      RunReads(Next(w, events[0]), events[1..], j);
    }
  }

  /**
   Once a runner has succeeded, every runner with the same files that reads the history after that finds
   nothing pending and commits nothing, or complains of a row that another runner has added meanwhile.
   */
  lemma SuccessLeavesNothingToOthers(w: World, i: nat, events: seq<Event>, j: nat)
    requires Invariant(w) && IsRun(w, events) && i < |w.runners| && j < |w.runners|
    requires w.runners[i].place.Finished? && !w.runners[i].failed
    requires w.runners[j].files == w.runners[i].files && !w.runners[j].hasRead
    requires j < |AfterRun(w, events).runners| && AfterRun(w, events).runners[j].hasRead
    ensures |AfterRun(w, events).runners| == |w.runners|
    ensures var r, q := w.runners[i], AfterRun(w, events).runners[j];
            var done := r.base + RowsOf(r.pending);
            && q.pending == [] && q.committed == 0 && done <= q.base
            && FindPending(q.files, q.base) ==
                 if FirstMismatch(q.files, q.base[|done|..]).Some? then FirstMismatch(q.files, q.base[|done|..]).value
                 else PendingMigrations([])
  {
    RunReads(w, events, j);
    SucceededRunner(w, i);
    var r, after := w.runners[i], AfterRun(w, events);
    var q := after.runners[j];
    RunnerAccount(after, j);
    ReaderIsFaithful(after, j);
    hide Invariant, IsRun, AfterRun, FirstMismatch, NotApplied, RowsOf;
    assert r.base + RowsOf(r.pending) <= w.history <= q.base;
    CompletedRunHoldsForever(r.files, r.base, q.base);
  }

  lemma SucceededRunner(w: World, i: nat)
    requires Invariant(w) && i < |w.runners| && w.runners[i].place.Finished? && !w.runners[i].failed
    ensures var r := w.runners[i];
            && IsPlan(r.files) && FindPending(r.files, r.base) == PendingMigrations(r.pending)
            && r.base + RowsOf(r.pending) <= w.history
  {
    LocalTransaction(w, i);
    hide RowsOf, FindPending, Consistent;
    var r := w.runners[i];
    assert r.pending[..|r.pending|] == r.pending;
  }

  lemma ReaderIsFaithful(w: World, j: nat)
    requires Invariant(w) && j < |w.runners| && w.runners[j].hasRead
    ensures var q := w.runners[j];
            && q.committed <= |q.pending|
            && (if FindPending(q.files, q.base).PendingMigrations?
                then FindPending(q.files, q.base) == PendingMigrations(q.pending)
                else q.pending == [])
  {
    LocalTransaction(w, j);
    hide RowsOf, FindPending, Consistent;
  }
}
