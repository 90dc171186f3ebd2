/**
 What a partition preparer does when nothing disturbs it: every query is answered, no row arrives and no other
 preparer moves. It then ends by itself, with every planned day attached and its rows moved, and leaves the lock.
 */
module PartitionProgress {
  import opened Prelude
  import opened LogEntry
  import opened PartitionPreparer
  import opened PartitionConservation

  /** The next `n` queries of a preparer are possible and are answered, and nothing else happens. */
  ghost predicate Runs(w: World, i: nat, n: nat)
    decreases n
  {
    n == 0 || (Enabled(w, Step(i, Answered)) && Runs(Next(w, Step(i, Answered)), i, n - 1))
  }

  ghost function After(w: World, i: nat, n: nat): World
    requires Runs(w, i, n)
    decreases n
  {
    if n == 0 then w else After(Next(w, Step(i, Answered)), i, n - 1)
  }

  lemma {:induction false} RunsCompose(w: World, i: nat, a: nat, b: nat)
    requires Runs(w, i, a) && Runs(After(w, i, a), i, b)
    ensures Runs(w, i, a + b) && After(w, i, a + b) == After(After(w, i, a), i, b)
    decreases a
  {
    hide Next, Enabled;
    if a > 0 {
      RunsCompose(Next(w, Step(i, Answered)), i, a - 1, b);
    }
  }

  /** Such a stretch is a run in the sense of all the theorems about runs. */
  lemma {:induction false} StretchIsRun(w: World, i: nat, n: nat)
    requires Runs(w, i, n)
    ensures IsRun(w, seq(n, _ => Step(i, Answered)))
    ensures AfterRun(w, seq(n, _ => Step(i, Answered))) == After(w, i, n)
    decreases n
  {
    hide Next, Enabled;
    if n > 0 {
      var events := seq(n, _ => Step(i, Answered));
      StretchIsRun(Next(w, Step(i, Answered)), i, n - 1);
      assert events[1..] == seq(n - 1, _ => Step(i, Answered));
    }
  }

  lemma OneStep(w: World, i: nat)
    requires Enabled(w, Step(i, Answered))
    ensures Runs(w, i, 1) && After(w, i, 1) == Next(w, Step(i, Answered))
  {
    assert Runs(Next(w, Step(i, Answered)), i, 0);
  }

  /** After one more query the run goes on as it did. */
  lemma OneStepMore(w: World, i: nat, n: nat)
    requires Runs(w, i, n) && Enabled(After(w, i, n), Step(i, Answered))
    ensures Runs(w, i, n + 1) && After(w, i, n + 1) == Next(After(w, i, n), Step(i, Answered))
  {
    hide Next, Enabled;
    OneStep(After(w, i, n), i);
    RunsCompose(w, i, n, 1);
  }

  /** The preparer, at work with the lock, and the tables as it finds them. */
  ghost predicate At(w: World, i: nat, p: Preparer, rows: seq<Log>, partitions: seq<Partition>) {
    && i < |w.preparers| && w.preparers[i] == p && w.lock == Some(i)
    && w.defaultRows == rows && w.partitions == partitions
    && w.defaultLock == if HoldsDefault(p.transaction) then Some(i) else None
  }

  /** The transaction of a day, place by place. */
  function InTransaction(p: Preparer, place: Place, t: Transaction): Preparer {
    p.(place := place, transaction := t)
  }

  lemma BeginAnswered(w: World, i: nat, p: Preparer, rows: seq<Log>, partitions: seq<Partition>)
    requires At(w, i, p, rows, partitions) && p.alive && p.place.Begin? && p.transaction.NoTransaction?
    ensures Enabled(w, Step(i, Answered))
    ensures At(Next(w, Step(i, Answered)), i,
               InTransaction(p, LockDefault, Open(false, None, [], None, false)), rows, partitions)
  {
  }

  lemma LockAnswered(w: World, i: nat, p: Preparer, rows: seq<Log>, partitions: seq<Partition>)
    requires At(w, i, p, rows, partitions) && p.alive
    requires p.place.LockDefault? && p.transaction == Open(false, None, [], None, false)
    ensures Enabled(w, Step(i, Answered))
    ensures At(Next(w, Step(i, Answered)), i,
               InTransaction(p, CreateTable, Open(true, None, [], None, false)), rows, partitions)
  {
  }

  lemma CreateAnswered(w: World, i: nat, p: Preparer, rows: seq<Log>, partitions: seq<Partition>)
    requires At(w, i, p, rows, partitions) && p.alive && HasDay(p)
    requires p.place.CreateTable? && p.transaction == Open(true, None, [], None, false)
    requires p.days[p.next] !in AttachedDays(partitions)
    ensures Enabled(w, Step(i, Answered))
    ensures At(Next(w, Step(i, Answered)), i,
               InTransaction(p, CheckOverlap, Open(true, Some(p.days[p.next]), [], None, false)), rows, partitions)
  {
    hide AttachedDays;
  }

  lemma CheckAnswered(w: World, i: nat, p: Preparer, rows: seq<Log>, partitions: seq<Partition>)
    requires At(w, i, p, rows, partitions) && p.alive && HasDay(p)
    requires p.place.CheckOverlap? && p.transaction == Open(true, Some(p.days[p.next]), [], None, false)
    ensures Enabled(w, Step(i, Answered))
    ensures At(Next(w, Step(i, Answered)), i,
               p.(place := if HasRowIn(rows, p.days[p.next]) then MoveRows else Attach), rows, partitions)
  {
    hide HasRowIn;
  }

  lemma MoveAnswered(w: World, i: nat, p: Preparer, rows: seq<Log>, partitions: seq<Partition>)
    requires At(w, i, p, rows, partitions) && p.alive && HasDay(p)
    requires p.place.MoveRows? && p.transaction == Open(true, Some(p.days[p.next]), [], None, false)
    ensures Enabled(w, Step(i, Answered))
    ensures var day := p.days[p.next];
            At(Next(w, Step(i, Answered)), i,
               InTransaction(p, Attach, Open(true, Some(day), RowsIn(rows, day), Some(RowsNotIn(rows, day)), false)),
               rows, partitions)
  {
    hide RowsIn, RowsNotIn;
  }

  lemma AttachAnswered(w: World, i: nat, p: Preparer, rows: seq<Log>, partitions: seq<Partition>)
    requires At(w, i, p, rows, partitions) && p.alive && HasDay(p)
    requires p.place.Attach? && p.transaction.Open? && p.transaction.locked
    requires p.days[p.next] !in AttachedDays(partitions)
    requires !HasRowIn(if p.transaction.rest.Some? then p.transaction.rest.value else rows, p.days[p.next])
    ensures Enabled(w, Step(i, Answered))
    ensures At(Next(w, Step(i, Answered)), i,
               InTransaction(p, Commit, p.transaction.(attached := true)), rows, partitions)
  {
    hide HasRowIn, AttachedDays;
  }

  lemma CommitAnswered(w: World, i: nat, p: Preparer, rows: seq<Log>, partitions: seq<Partition>)
    requires At(w, i, p, rows, partitions) && p.alive && HasDay(p)
    requires p.place.Commit? && p.transaction.Open? && p.transaction.locked
    ensures Enabled(w, Step(i, Answered))
    ensures At(Next(w, Step(i, Answered)), i, GoOn(p.(transaction := NoTransaction), p.next + 1),
               if p.transaction.rest.Some? then p.transaction.rest.value else rows,
               partitions + [Partition(p.days[p.next], p.transaction.moved)])
  {
    hide Skip;
  }

  lemma {:induction false} NothingToMove(rows: seq<Log>, day: int)
    requires !HasRowIn(rows, day)
    ensures RowsIn(rows, day) == [] && RowsNotIn(rows, day) == rows
  {
    hide DayOf;
    if rows != [] {
      NoRowIn(rows, day);
      NoRowIn(rows[1..], day);
      assert rows[0] in rows && forall row :: row in rows[1..] ==> row in rows;
      NothingToMove(rows[1..], day);
      assert rows == [rows[0]] + rows[1..];
    }
  }

  /** BEGIN to COMMIT: the next day gets its partition, with the default's rows of that day in it. */
  lemma AttachesDay(w: World, i: nat, p: Preparer, rows: seq<Log>, partitions: seq<Partition>) returns (n: nat)
    requires At(w, i, p, rows, partitions) && p.alive && p.place.Begin? && p.transaction.NoTransaction? && HasDay(p)
    requires p.days[p.next] !in AttachedDays(partitions)
    ensures Runs(w, i, n)
    ensures var day := p.days[p.next];
            At(After(w, i, n), i, GoOn(p, p.next + 1), RowsNotIn(rows, day),
               partitions + [Partition(day, RowsIn(rows, day))])
  {
    hide Next, Enabled, HasRowIn, AttachedDays, RowsIn, RowsNotIn, Runs, After, At, GoOn;
    var day := p.days[p.next];
    BeginAnswered(w, i, p, rows, partitions);
    OneStep(w, i);
    var locking := InTransaction(p, LockDefault, Open(false, None, [], None, false));
    LockAnswered(After(w, i, 1), i, locking, rows, partitions);
    OneStepMore(w, i, 1);
    var creating := InTransaction(p, CreateTable, Open(true, None, [], None, false));
    CreateAnswered(After(w, i, 2), i, creating, rows, partitions);
    OneStepMore(w, i, 2);
    var checking := InTransaction(p, CheckOverlap, Open(true, Some(day), [], None, false));
    CheckAnswered(After(w, i, 3), i, checking, rows, partitions);
    OneStepMore(w, i, 3);
    var attaching := InTransaction(p, Attach, Open(true, Some(day), [], None, false));
    n := 4;
    if HasRowIn(rows, day) {
      MoveAnswered(After(w, i, 4), i, checking.(place := MoveRows), rows, partitions);
      OneStepMore(w, i, 4);
      attaching := InTransaction(p, Attach,
        Open(true, Some(day), RowsIn(rows, day), Some(RowsNotIn(rows, day)), false));
      NoRowLeft(rows, day);
      n := 5;
    } else {
      NothingToMove(rows, day);
    }
    AttachAnswered(After(w, i, n), i, attaching, rows, partitions);
    OneStepMore(w, i, n);
    var committing := InTransaction(attaching, Commit, attaching.transaction.(attached := true));
    CommitAnswered(After(w, i, n + 1), i, committing, rows, partitions);
    OneStepMore(w, i, n + 1);
    GoesOn(p, committing);
    n := n + 2;
  }

  lemma NoRowLeft(rows: seq<Log>, day: int)
    ensures !HasRowIn(RowsNotIn(rows, day), day)
  {
    SplitConserves(rows, day);
    NoRowIn(RowsNotIn(rows, day), day);
  }

  lemma GoesOn(p: Preparer, q: Preparer)
    requires HasDay(p) && p.transaction.NoTransaction? && q == p.(place := q.place, transaction := q.transaction)
    ensures GoOn(q.(transaction := NoTransaction), q.next + 1) == GoOn(p, p.next + 1)
  {
  }

  ghost function DaySet(days: seq<int>): set<int> {
    set day | day in days
  }

  /** Every day before `next` is attached, and the others are exactly as they were when the catalog was read. */
  ghost predicate IsBehind(p: Preparer, partitions: seq<Partition>) {
    && p.alive && !p.failed && p.transaction.NoTransaction? && p.next <= |p.days| && IsDayPlan(p.days)
    && p.place == (if p.next < |p.days| then Begin else Unlock)
    && AttachedDays(partitions) == p.existing + DaySet(p.days[..p.next])
    && (HasDay(p) ==> p.days[p.next] !in p.existing)
  }

  lemma Skips(p: Preparer, from: nat, partitions: seq<Partition>)
    requires from <= |p.days| && IsDayPlan(p.days) && p.alive && !p.failed && p.transaction.NoTransaction?
    requires AttachedDays(partitions) == p.existing + DaySet(p.days[..from])
    ensures IsBehind(GoOn(p, from), partitions)
  {
    var next := Skip(p.days, p.existing, from);
    assert p.days[..next] == p.days[..from] + p.days[from..next];
    forall day | day in p.days[from..next] ensures day in p.existing {
      var k :| 0 <= k < |p.days[from..next]| && p.days[from..next][k] == day;
      assert p.days[from + k] == day;
    }
  }

  lemma DayIsNew(p: Preparer, partitions: seq<Partition>)
    requires IsBehind(p, partitions) && HasDay(p)
    ensures p.days[p.next] !in AttachedDays(partitions)
    ensures forall rows: seq<Log> ::
              AttachedDays(partitions + [Partition(p.days[p.next], rows)]) == p.existing + DaySet(p.days[..p.next + 1])
  {
    var day := p.days[p.next];
    forall rows: seq<Log>
      ensures AttachedDays(partitions + [Partition(day, rows)]) == AttachedDays(partitions) + {day}
    {
      var more := partitions + [Partition(day, rows)];
      assert forall q :: q in more <==> q in partitions || q == Partition(day, rows);
    }
    assert p.days[..p.next + 1] == p.days[..p.next] + [day];
  }

  /** What the end of a run looks like. */
  ghost predicate HasEnded(w: World, i: nat, attached: set<int>) {
    && i < |w.preparers| && w.preparers[i].place.Finished? && !w.preparers[i].failed
    && w.lock.None? && w.defaultLock.None? && AttachedDays(w.partitions) == attached
  }

  lemma UnlockAnswered(w: World, i: nat, p: Preparer, rows: seq<Log>, partitions: seq<Partition>)
    requires At(w, i, p, rows, partitions) && p.place.Unlock? && p.alive && !p.failed && p.transaction.NoTransaction?
    ensures Runs(w, i, 1) && HasEnded(After(w, i, 1), i, AttachedDays(partitions))
  {
    hide AttachedDays;
    OneStep(w, i);
  }

  lemma {:induction false} AttachesAll(w: World, i: nat, p: Preparer, rows: seq<Log>, partitions: seq<Partition>)
    returns (n: nat)
    requires At(w, i, p, rows, partitions) && IsBehind(p, partitions)
    ensures Runs(w, i, n) && HasEnded(After(w, i, n), i, p.existing + DaySet(p.days))
    decreases |p.days| - p.next
  {
    hide Runs, After, At, HasEnded, RowsIn, RowsNotIn, AttachedDays, DaySet, Skip;
    if p.next == |p.days| {
      assert p.days[..p.next] == p.days;
      UnlockAnswered(w, i, p, rows, partitions);
      n := 1;
    } else {
      DayIsNew(p, partitions);
      var first := AttachesDay(w, i, p, rows, partitions);
      var day := p.days[p.next];
      Skips(p, p.next + 1, partitions + [Partition(day, RowsIn(rows, day))]);
      var rest := AttachesAll(After(w, i, first), i, GoOn(p, p.next + 1), RowsNotIn(rows, day),
                              partitions + [Partition(day, RowsIn(rows, day))]);
      RunsCompose(w, i, first, rest);
      n := first + rest;
    }
  }

  lemma ReachesReading(w: World, i: nat, days: seq<int>)
    requires i < |w.preparers| && w.preparers[i] == NewPreparer(days) && w.lock.None? && w.defaultLock.None?
    ensures Runs(w, i, 2)
    ensures At(After(w, i, 2), i,
               GoOn(NewPreparer(days).(hasRead := true, existing := AttachedDays(w.partitions)), 0),
               w.defaultRows, w.partitions)
  {
    hide Skip, AttachedDays;
    OneStep(w, i);
    OneStepMore(w, i, 1);
  }

  /**
   An undisturbed preparer ends without error and without the locks, and then exactly the days attached before and
   the planned days are attached.
   */
  lemma UndisturbedRunAttachesPlan(w: World, i: nat, days: seq<int>) returns (n: nat)
    requires i < |w.preparers| && w.preparers[i] == NewPreparer(days) && IsDayPlan(days)
    requires w.lock.None? && w.defaultLock.None?
    ensures Runs(w, i, n) && HasEnded(After(w, i, n), i, AttachedDays(w.partitions) + DaySet(days))
  {
    hide Runs, After, At, HasEnded, AttachedDays, Skip, GoOn, IsBehind;
    var p := NewPreparer(days).(hasRead := true, existing := AttachedDays(w.partitions));
    ReachesReading(w, i, days);
    assert days[..0] == [];
    Skips(p, 0, w.partitions);
    GoingOnKeeps(p, 0);
    var rest := AttachesAll(After(w, i, 2), i, GoOn(p, 0), w.defaultRows, w.partitions);
    RunsCompose(w, i, 2, rest);
    n := 2 + rest;
  }

  lemma GoingOnKeeps(p: Preparer, from: nat)
    requires from <= |p.days|
    ensures GoOn(p, from).days == p.days && GoOn(p, from).existing == p.existing
  {
  }

  // ---------------------------------------------------------------- when a query fails

  /** Where a preparer goes when a query fails or its answer is lost. */
  function Cleanup(place: Place): Place {
    match place
    case TryLock => Finished
    case Unlock => Finished
    case ReadPartitions => Unlock
    case Rollback => Unlock
    case _ => Rollback
  }

  /**
   A query that fails ends the preparer's work: it goes on to roll back and to unlock, as far as these are due,
   and has failed. The tables are as they were, unless it was a commit whose answer was lost.
   */
  lemma FailureStopsWork(w: World, i: nat, reply: Reply)
    requires Enabled(w, Step(i, reply)) && !reply.Answered?
    ensures var t, p := Next(w, Step(i, reply)), w.preparers[i];
            && t.preparers[i].failed && t.preparers[i].place == Cleanup(p.place)
            && (t.defaultRows != w.defaultRows || t.partitions != w.partitions ==> p.place.Commit? && reply.Lost?)
            && (t.lock != w.lock ==> reply.Lost? && (p.place.TryLock? || p.place.Unlock?))
  {
    hide StatementStep, AttachedDays, HasRowIn, Skip;
    StatementFails(w, w.preparers[i], reply);
  }

  lemma StatementFails(w: World, p: Preparer, reply: Reply)
    requires !reply.Answered? && (!reply.Failed? ==> CanSucceed(w, p))
    ensures StatementStep(w, p, reply).failed && StatementStep(w, p, reply).place == Rollback
  {
    hide HasRowIn, RowsIn, RowsNotIn, AttachedDays;
  }

  /** What a failed statement leaves of the transaction; a BEGIN whose answer is lost has opened one. */
  lemma FailureAborts(w: World, p: Preparer, reply: Reply)
    requires !reply.Answered? && (!reply.Failed? ==> CanSucceed(w, p))
    ensures var t := StatementStep(w, p, reply).transaction;
            if p.place.Begin?
            then t == if reply.Lost? then Open(false, None, [], None, false) else p.transaction
            else t == if p.transaction.Open? then Aborted(p.transaction.locked) else p.transaction
  {
    hide HasRowIn, RowsIn, RowsNotIn, AttachedDays;
  }

  /** A rollback that fails leaves the transaction open with its locks; one whose answer is lost has ended it. */
  lemma FailedRollbackHolds(w: World, i: nat, reply: Reply)
    requires Invariant(w) && Enabled(w, Step(i, reply)) && w.preparers[i].place.Rollback? && !reply.Answered?
    ensures var t, p := Next(w, Step(i, reply)), w.preparers[i];
            && t.preparers[i].transaction == (if reply.Failed? then p.transaction else NoTransaction)
            && (reply.Failed? ==> t.defaultLock == w.defaultLock)
            && (reply.Lost? ==> t.defaultLock != Some(i))
  {
  }

  /** A session that has ended answers nothing any more, and no unlock is answered in an aborted transaction. */
  lemma DeadSessionFails(w: World, i: nat, reply: Reply)
    requires Enabled(w, Step(i, reply))
    requires !w.preparers[i].alive || (w.preparers[i].place.Unlock? && w.preparers[i].transaction.Aborted?)
    ensures reply.Failed?
  {
  }

  ghost predicate HasFailed(w: World, i: nat, rows: seq<Log>, partitions: seq<Partition>) {
    && i < |w.preparers| && w.preparers[i].place.Finished? && w.preparers[i].failed
    && w.lock.None? && w.defaultLock.None? && w.defaultRows == rows && w.partitions == partitions
  }

  /** After a failure the tables are left as they are: answered, the rollback and the unlock give both locks back. */
  lemma FailedRunEnds(w: World, i: nat, p: Preparer, rows: seq<Log>, partitions: seq<Partition>) returns (n: nat)
    requires At(w, i, p, rows, partitions) && p.failed && p.alive
    requires p.place.Rollback? || (p.place.Unlock? && p.transaction.NoTransaction?)
    ensures Runs(w, i, n) && HasFailed(After(w, i, n), i, rows, partitions)
  {
    OneStep(w, i);
    n := 1;
    if p.place.Rollback? {
      OneStepMore(w, i, 1);
      n := 2;
    }
  }

  /** A row can arrive if its day is attached or no preparer holds the default partition. */
  lemma RowArrivesUnlessHeld(w: World, row: Log)
    requires Invariant(w)
    ensures Enabled(w, RowArrives(row)) <==>
              || (exists p :: p in w.partitions && p.day == row.timestamp / 86_400_000_000)
              || forall i :: 0 <= i < |w.preparers| ==> !HoldsDefault(w.preparers[i].transaction)
  {
    assert Exclusive(w);
  }

  /** A lock that another session holds, on the advisory key or on the default partition, is waited for. */
  lemma HeldLocksWait(w: World, i: nat)
    requires i < |w.preparers|
    ensures w.preparers[i].place.TryLock? && w.lock.Some? && Enabled(w, Step(i, Answered)) ==>
              Next(w, Step(i, Answered)) == w
    ensures w.preparers[i].place.LockDefault? && w.defaultLock.Some? ==>
              forall reply :: Enabled(w, Step(i, reply)) ==> reply.Failed?
  {
  }
}
