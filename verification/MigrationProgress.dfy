/**
 What a migration runner does when nothing disturbs it: every query is answered, no other runner moves and its
 session stays alive. It then ends by itself, with all that was pending committed, and leaves the lock.
 */
module MigrationProgress {
  import opened Prelude
  import opened MigrationRunner
  import opened MigrationHistory

  /** The next `n` queries of a runner are possible and are answered, and nothing else happens. */
  ghost predicate Runs(w: World, i: nat, n: nat)
    decreases n
  {
    n == 0 || (Enabled(w, Step(i, Answered)) && Runs(Next(w, Step(i, Answered)), i, n - 1))
  }

  ghost function After(w: World, i: nat, n: nat): World
    requires Runs(w, i, n)
    decreases n
  {
    if n == 0 then w else After(Next(w, Step(i, Answered)), i, n - 1)
  }

  lemma {:induction false} RunsCompose(w: World, i: nat, a: nat, b: nat)
    requires Runs(w, i, a) && Runs(After(w, i, a), i, b)
    ensures Runs(w, i, a + b) && After(w, i, a + b) == After(After(w, i, a), i, b)
    decreases a
  {
    hide Next, Enabled;
    if a > 0 {
      RunsCompose(Next(w, Step(i, Answered)), i, a - 1, b);
    }
  }

  /** File names tell versions apart, as the version is part of the name. */
  ghost predicate NamesDiffer(files: seq<Migration>) {
    forall i, j :: 0 <= i < j < |files| ==> files[i].row.filename != files[j].row.filename
  }

  lemma OneNamePerFile(files: seq<Migration>, m: Migration, n: Migration)
    requires NamesDiffer(files) && m in files && n in files
    ensures m.row.filename == n.row.filename ==> m == n
  {
    var i :| 0 <= i < |files| && files[i] == m;
    var j :| 0 <= j < |files| && files[j] == n;
  }

  /** The runner, at work with the lock, and the database as it finds it. */
  ghost predicate At(w: World, i: nat, r: Runner, history: seq<Row>, effects: seq<Migration>) {
    i < |w.runners| && w.runners[i] == r && w.lock == Some(i) && w.history == history && w.effects == effects
  }

  lemma StatementAnswered(w: World, i: nat, r: Runner, history: seq<Row>, effects: seq<Migration>)
    requires At(w, i, r, history, effects) && CanSucceed(w, r)
    requires r.place.LoadFiles? || r.place.InitBegin? || r.place.InitSchema? || r.place.ApplyBegin? ||
             r.place.ApplySql? || r.place.ApplyInsert?
    ensures Enabled(w, Step(i, Answered))
    ensures At(Next(w, Step(i, Answered)), i, StatementStep(r, Answered), history, effects)
  {
    hide StatementStep, HasRoomFor;
  }

  lemma CommitAnswered(w: World, i: nat, r: Runner, history: seq<Row>, effects: seq<Migration>)
    requires At(w, i, r, history, effects) && r.place.ApplyCommit? && r.alive && r.transaction.Open?
    ensures Enabled(w, Step(i, Answered))
    ensures var more := r.(transaction := NoTransaction, committed := r.committed + 1, applied := r.applied + 1);
            At(Next(w, Step(i, Answered)), i, more.(place := NextApply(more)),
               history + r.transaction.rows, effects + r.transaction.effects)
  {
    hide NextApply;
  }

  lemma UnlockAnswered(w: World, i: nat, r: Runner, history: seq<Row>, effects: seq<Migration>)
    requires At(w, i, r, history, effects) && r.place.Unlock? && r.alive && r.transaction.NoTransaction?
    ensures Runs(w, i, 1) && HasEnded(After(w, i, 1), i, r.failed, history, effects)
  {
    OneStep(w, i);
  }

  /** The runner has applied the first `applied` of its list. */
  ghost predicate IsApplyingFrom(r: Runner, files: seq<Migration>, base: seq<Row>) {
    && r.files == files && IsPlan(files) && NamesDiffer(files)
    && FindPending(files, base) == PendingMigrations(r.pending)
    && r.alive && !r.failed && r.transaction.NoTransaction? && r.applied <= |r.pending|
    && r.place == NextApply(r)
  }

  /** The next pending migration meets neither its version nor its file name in the history. */
  lemma RoomForNext(r: Runner, files: seq<Migration>, base: seq<Row>)
    requires IsApplyingFrom(r, files, base) && r.applied < |r.pending|
    ensures HasRoomFor(base + RowsOf(r.pending[..r.applied]), r.pending[r.applied].row)
  {
    var k, m := r.applied, r.pending[r.applied];
    hide FindPending, RowsOf, IsPlan, NamesDiffer, NextApply, Describes;
    ComparisonIsExact(files, base);
    assert m in r.pending;
    var history := base + RowsOf(r.pending[..k]);
    forall j | 0 <= j < |history| ensures history[j].version != m.row.version && history[j].filename != m.row.filename {
      if j < |base| {
        assert base[j] in base && IsFileRow(files, base[j]);
        var n :| n in files && n.row == base[j];
        OneNamePerFile(files, m, n);
      } else {
        RowAt(r.pending, k, j - |base|);
        assert r.pending[j - |base|] in r.pending;
        PlanOrder(r.pending, j - |base|, k);
        OneNamePerFile(files, m, r.pending[j - |base|]);
      }
    }
  }

  lemma RowAt(migrations: seq<Migration>, n: nat, j: nat)
    requires j < n <= |migrations|
    ensures |RowsOf(migrations[..n])| == n && RowsOf(migrations[..n])[j] == migrations[j].row
  {
  }

  lemma PlanOrder(migrations: seq<Migration>, j: nat, k: nat)
    requires IsPlan(migrations) && j < k < |migrations|
    ensures migrations[j].row.version < migrations[k].row.version
  {
  }

  /** BEGIN, the file, its history row and COMMIT: one more migration applied. */
  lemma AppliesOne(w: World, i: nat, r: Runner, files: seq<Migration>, base: seq<Row>, effects: seq<Migration>)
    requires IsApplyingFrom(r, files, base) && r.applied < |r.pending|
    requires At(w, i, r, base + RowsOf(r.pending[..r.applied]), effects)
    ensures var more := r.(committed := r.committed + 1, applied := r.applied + 1);
            var next := more.(place := NextApply(more));
            && Runs(w, i, 4) && IsApplyingFrom(next, files, base)
            && At(After(w, i, 4), i, next, base + RowsOf(next.pending[..next.applied]),
                  effects + [r.pending[r.applied]])
  {
    RoomForNext(r, files, base);
    hide FindPending, IsPlan, NamesDiffer, HasRoomFor, RowsOf, Next, Enabled, Runs, After, At;
    var m, history := r.pending[r.applied], base + RowsOf(r.pending[..r.applied]);
    ApplyStatements(r);
    hide StatementStep;
    AliveCan(w, i, r, history, effects);
    StatementAnswered(w, i, r, history, effects);
    var begun := Next(w, Step(i, Answered));
    var executing := r.(transaction := Open([], []), place := ApplySql);
    AliveCan(begun, i, executing, history, effects);
    StatementAnswered(begun, i, executing, history, effects);
    var executed := Next(begun, Step(i, Answered));
    var recording := r.(transaction := Open([m], []), place := ApplyInsert);
    AliveCan(executed, i, recording, history, effects);
    StatementAnswered(executed, i, recording, history, effects);
    var recorded := Next(executed, Step(i, Answered));
    var committing := r.(transaction := Open([m], [m.row]), place := ApplyCommit);
    CommitAnswered(recorded, i, committing, history, effects);
    RowsGrow(r.pending, r.applied);
    assert history + [m.row] == base + (RowsOf(r.pending[..r.applied]) + [m.row]);
    FourSteps(w, i);
  }

  lemma ApplyStatements(r: Runner)
    requires r.applied < |r.pending| && NextApply(r) == r.place
    ensures var m := r.pending[r.applied];
            var executing := r.(transaction := Open([], []), place := ApplySql);
            var recording := r.(transaction := Open([m], []), place := ApplyInsert);
            && StatementStep(r, Answered) == executing && StatementStep(executing, Answered) == recording
            && StatementStep(recording, Answered) == r.(transaction := Open([m], [m.row]), place := ApplyCommit)
  {
    var m := r.pending[r.applied];
    assert [] + [m] == [m] && [] + [m.row] == [m.row];
  }

  lemma AliveCan(w: World, i: nat, r: Runner, history: seq<Row>, effects: seq<Migration>)
    requires At(w, i, r, history, effects) && r.alive && r.applied < |r.pending|
    requires r.place.ApplyBegin? || r.transaction.Open?
    requires HasRoomFor(history, r.pending[r.applied].row)
    requires r.place.ApplyBegin? || r.place.ApplySql? || r.place.ApplyInsert?
    ensures CanSucceed(w, r)
  {
    hide HasRoomFor;
  }

  lemma RowsGrow(migrations: seq<Migration>, n: nat)
    requires n < |migrations|
    ensures RowsOf(migrations[..n + 1]) == RowsOf(migrations[..n]) + [migrations[n].row]
  {
  }

  lemma FourSteps(w: World, i: nat)
    requires Enabled(w, Step(i, Answered))
    requires Enabled(Next(w, Step(i, Answered)), Step(i, Answered))
    requires Enabled(Next(Next(w, Step(i, Answered)), Step(i, Answered)), Step(i, Answered))
    requires Enabled(Next(Next(Next(w, Step(i, Answered)), Step(i, Answered)), Step(i, Answered)), Step(i, Answered))
    ensures Runs(w, i, 4)
    ensures After(w, i, 4) ==
              Next(Next(Next(Next(w, Step(i, Answered)), Step(i, Answered)), Step(i, Answered)), Step(i, Answered))
  {
    hide Next, Enabled;
    var e := Step(i, Answered);
    var a := Next(w, e);
    var b := Next(a, e);
    var c := Next(b, e);
    assert Runs(Next(c, e), i, 0);
    assert Runs(c, i, 1) && After(c, i, 1) == Next(c, e);
    assert Runs(b, i, 2) && After(b, i, 2) == Next(c, e);
    assert Runs(a, i, 3) && After(a, i, 3) == Next(c, e);
  }

  /** What the end of a run looks like. */
  ghost predicate HasEnded(w: World, i: nat, failed: bool, history: seq<Row>, effects: seq<Migration>) {
    && i < |w.runners| && w.runners[i].place.Finished? && w.runners[i].failed == failed
    && w.history == history && w.effects == effects && w.lock.None?
  }

  /** Such a stretch is a run in the sense of all the theorems about runs. */
  lemma {:induction false} StretchIsRun(w: World, i: nat, n: nat)
    requires Runs(w, i, n)
    ensures IsRun(w, seq(n, _ => Step(i, Answered)))
    ensures AfterRun(w, seq(n, _ => Step(i, Answered))) == After(w, i, n)
    decreases n
  {
    hide Next, Enabled;
    if n > 0 {
      var events := seq(n, _ => Step(i, Answered));
      StretchIsRun(Next(w, Step(i, Answered)), i, n - 1);
      assert events[1..] == seq(n - 1, _ => Step(i, Answered));
    }
  }

  lemma OneStep(w: World, i: nat)
    requires Enabled(w, Step(i, Answered))
    ensures Runs(w, i, 1) && After(w, i, 1) == Next(w, Step(i, Answered))
  {
    assert Runs(Next(w, Step(i, Answered)), i, 0);
  }

  lemma {:induction false} AppliesAll(w: World, i: nat, r: Runner, files: seq<Migration>, base: seq<Row>,
                                      effects: seq<Migration>) returns (n: nat)
    requires IsApplyingFrom(r, files, base) && At(w, i, r, base + RowsOf(r.pending[..r.applied]), effects)
    ensures Runs(w, i, n)
    ensures HasEnded(After(w, i, n), i, false, base + RowsOf(r.pending), effects + r.pending[r.applied..])
    decreases |r.pending| - r.applied
  {
    hide FindPending, IsPlan, NamesDiffer, RowsOf, Runs, After, At;
    if r.applied == |r.pending| {
      assert r.pending[..r.applied] == r.pending && r.pending[r.applied..] == [];
      UnlockAnswered(w, i, r, base + RowsOf(r.pending), effects);
      assert effects + [] == effects;
      n := 1;
    } else {
      AppliesOne(w, i, r, files, base, effects);
      var more := r.(committed := r.committed + 1, applied := r.applied + 1);
      var rest := AppliesAll(After(w, i, 4), i, more.(place := NextApply(more)), files, base,
                             effects + [r.pending[r.applied]]);
      RunsCompose(w, i, 4, rest);
      assert [r.pending[r.applied]] + r.pending[r.applied + 1..] == r.pending[r.applied..];
      assert effects + [r.pending[r.applied]] + r.pending[r.applied + 1..] == effects + r.pending[r.applied..];
      n := 4 + rest;
    }
  }

  /** TryLock, the files, the history table in a transaction of its own: then the history is read. */
  lemma ReachesReading(w: World, i: nat, files: seq<Migration>)
    requires i < |w.runners| && w.runners[i] == NewRunner(files) && w.lock.None?
    ensures Runs(w, i, 5)
    ensures At(After(w, i, 5), i, NewRunner(files).(place := ReadHistory), w.history, w.effects)
    ensures After(w, i, 5).historyReady
  {
    hide FindPending, RowsOf, Runs, After, CanSucceed;
    var e, r := Step(i, Answered), NewRunner(files);
    assert CanSucceed(w, r) by { NewRunnerCan(w, r); }
    var locked := Next(w, e);
    LoaderCan(locked, r.(place := LoadFiles));
    StatementAnswered(locked, i, r.(place := LoadFiles), w.history, w.effects);
    var loaded := Next(locked, e);
    LoaderCan(loaded, r.(place := InitBegin));
    StatementAnswered(loaded, i, r.(place := InitBegin), w.history, w.effects);
    var begun := Next(loaded, e);
    LoaderCan(begun, r.(place := InitSchema, transaction := Open([], [])));
    StatementAnswered(begun, i, r.(place := InitSchema, transaction := Open([], [])), w.history, w.effects);
    var created := Next(begun, e);
    LoaderCan(created, r.(place := InitCommit, transaction := Open([], [])));
    FourSteps(w, i);
    OneStep(created, i);
    RunsCompose(w, i, 4, 1);
  }

  lemma NewRunnerCan(w: World, r: Runner)
    requires r.place.TryLock? && r.alive
    ensures CanSucceed(w, r)
  {
  }

  lemma LoaderCan(w: World, r: Runner)
    requires r.alive
    requires r.place.LoadFiles? || r.place.InitBegin? || r.place.ReadHistory? ||
             ((r.place.InitSchema? || r.place.InitCommit?) && r.transaction.Open?)
    ensures CanSucceed(w, r)
  {
  }

  lemma ReadAnswered(w: World, i: nat, files: seq<Migration>, history: seq<Row>, effects: seq<Migration>)
    requires At(w, i, NewRunner(files).(place := ReadHistory), history, effects)
    ensures Enabled(w, Step(i, Answered))
    ensures var found, r := FindPending(files, history), NewRunner(files).(hasRead := true, base := history);
            At(Next(w, Step(i, Answered)), i,
               if found.PendingMigrations?
               then var ready := r.(pending := found.pending); ready.(place := NextApply(ready))
               else r.(failed := true, place := Unlock), history, effects)
  {
    hide FindPending;
  }

  /**
   An undisturbed run ends. If every row of the history is the row of a file, it commits exactly the files whose
   version the history does not have, in order, and succeeds. Otherwise it commits nothing and fails. Either way
   the lock is free again.
   */
  lemma UndisturbedRunEnds(w: World, i: nat, files: seq<Migration>) returns (n: nat)
    requires i < |w.runners| && w.runners[i] == NewRunner(files) && w.lock.None?
    requires IsPlan(files) && NamesDiffer(files)
    ensures Runs(w, i, n)
    ensures var found, t := FindPending(files, w.history), After(w, i, n);
            if found.PendingMigrations?
            then HasEnded(t, i, false, w.history + RowsOf(found.pending), w.effects + found.pending)
            else HasEnded(t, i, true, w.history, w.effects)
  {
    hide FindPending, IsPlan, NamesDiffer, RowsOf, Runs, After, Next, Enabled, At, HasEnded;
    ReachesReading(w, i, files);
    var reading := After(w, i, 5);
    ReadAnswered(reading, i, files, w.history, w.effects);
    OneStep(reading, i);
    RunsCompose(w, i, 5, 1);
    var found, read := FindPending(files, w.history), After(w, i, 6);
    var r := NewRunner(files).(hasRead := true, base := w.history);
    if found.PendingMigrations? {
      var ready := r.(pending := found.pending);
      NoRows(found.pending);
      assert w.history + [] == w.history;
      var more := AppliesAll(read, i, ready.(place := NextApply(ready)), files, w.history, w.effects);
      assert found.pending[0..] == found.pending;
      RunsCompose(w, i, 6, more);
      n := 6 + more;
    } else {
      UnlockAnswered(read, i, r.(failed := true, place := Unlock), w.history, w.effects);
      RunsCompose(w, i, 6, 1);
      n := 7;
    }
  }

  lemma NoRows(migrations: seq<Migration>)
    ensures RowsOf(migrations[..0]) == []
  {
  }

  // ---------------------------------------------------------------- when a query fails

  /** Where a runner goes when a query fails or its answer is lost. */
  function Cleanup(place: Place): Place {
    match place
    case TryLock => Finished
    case Unlock => Finished
    case LoadFiles => Unlock
    case ReadHistory => Unlock
    case InitRollback => Unlock
    case ApplyRollback => Unlock
    case InitBegin => InitRollback
    case InitSchema => InitRollback
    case InitCommit => InitRollback
    case _ => ApplyRollback
  }

  /**
   A query that fails ends the runner's work: it goes on to roll back and to unlock, as far as these are due, and
   the run has failed. The database is as it was, unless it was a commit or an unlock whose answer was lost.
   */
  lemma FailureStopsWork(w: World, i: nat, reply: Reply)
    requires Invariant(w) && Enabled(w, Step(i, reply)) && !reply.Answered?
    ensures var t, r := Next(w, Step(i, reply)), w.runners[i];
            && t.runners[i].failed && t.runners[i].place == Cleanup(r.place)
            && (t.history != w.history || t.effects != w.effects ==> r.place.ApplyCommit? && reply.Lost?)
            && (t.lock != w.lock ==> reply.Lost? && (r.place.TryLock? || r.place.Unlock?))
  {
    hide FindPending, RowsOf, HasRoomFor, IsPlan, Consistent, StatementStep, CanSucceed, NextApply;
    LocalTransaction(w, i);
    StatementFails(w.runners[i], reply);
    hide Invariant;
  }

  lemma StatementFails(r: Runner, reply: Reply)
    requires !reply.Answered?
    ensures var t := StatementStep(r, reply);
            r.place.LoadFiles? || r.place.InitBegin? || r.place.InitSchema? || r.place.InitRollback? ||
            r.place.ApplyBegin? || r.place.ApplySql? || r.place.ApplyInsert? || r.place.ApplyRollback? ==>
              t.failed && t.place == Cleanup(r.place)
  {
    hide AfterError;
  }

  lemma StatementsStayFailed(r: Runner, reply: Reply)
    requires r.failed
    ensures StatementStep(r, reply).failed
  {
    hide AfterError;
  }

  lemma LockStepsStayFailed(w: World, i: nat, reply: Reply)
    requires i < |w.runners| && w.runners[i].failed
    ensures TryLockStep(w, i, reply).runners[i].failed && UnlockStep(w, i, reply).runners[i].failed
    ensures InitCommitStep(w, i, reply).runners[i].failed && CommitStep(w, i, reply).runners[i].failed
    ensures ReadHistoryStep(w, i, reply).runners[i].failed
  {
    hide NextApply, FindPending;
  }

  /** A failed run never becomes a success. */
  lemma FailureIsFinal(w: World, e: Event, i: nat)
    requires Enabled(w, e) && i < |w.runners| && w.runners[i].failed
    ensures |Next(w, e).runners| == |w.runners| && Next(w, e).runners[i].failed
  {
    OtherRunnersStay(w, e, i);
    hide CanSucceed, StatementStep, TryLockStep, UnlockStep, InitCommitStep, CommitStep, ReadHistoryStep;
    if e.Step? && i == e.runner {
      StatementsStayFailed(w.runners[i], e.reply);
      LockStepsStayFailed(w, i, e.reply);
    }
  }

  /** A session that has ended answers nothing any more, and no unlock is answered in an aborted transaction. */
  lemma DeadSessionFails(w: World, i: nat, reply: Reply)
    requires Invariant(w) && Enabled(w, Step(i, reply))
    requires || (!w.runners[i].alive && !w.runners[i].place.LoadFiles?)
             || (w.runners[i].place.Unlock? && w.runners[i].transaction.Aborted?)
    ensures reply.Failed?
  {
  }

  /** After a failure the database is left as it is: answered, the rollback and the unlock give the lock back. */
  lemma FailedRunEnds(w: World, i: nat, r: Runner, history: seq<Row>, effects: seq<Migration>) returns (n: nat)
    requires At(w, i, r, history, effects) && r.failed && r.alive
    requires r.place.InitRollback? || r.place.ApplyRollback? || (r.place.Unlock? && !r.transaction.Aborted?)
    ensures Runs(w, i, n) && HasEnded(After(w, i, n), i, true, history, effects)
  {
    OneStep(w, i);
    n := 1;
    if !r.place.Unlock? {
      OneStep(After(w, i, 1), i);
      RunsCompose(w, i, 1, 1);
      n := 2;
    }
  }

  /** What a failed statement leaves of the transaction; a BEGIN whose answer is lost has opened one. */
  lemma FailureAborts(r: Runner, reply: Reply)
    requires !reply.Answered?
    requires r.place.InitBegin? || r.place.InitSchema? || r.place.ApplyBegin? || r.place.ApplySql? ||
             r.place.ApplyInsert? || r.place.InitRollback? || r.place.ApplyRollback?
    ensures var t := StatementStep(r, reply).transaction;
            if r.place.InitBegin? || r.place.ApplyBegin?
            then t == if reply.Lost? then Open([], []) else r.transaction
            else if r.place.InitRollback? || r.place.ApplyRollback?
            then t == if reply.Lost? then NoTransaction else r.transaction
            else t == if r.transaction.Open? then Aborted else r.transaction
  {
  }

  /** A lock that another runner holds is tried again. */
  lemma HeldLockWaits(w: World, i: nat)
    requires i < |w.runners| && w.runners[i].place.TryLock? && w.lock.Some? && Enabled(w, Step(i, Answered))
    ensures Next(w, Step(i, Answered)) == w
  {
  }
}
