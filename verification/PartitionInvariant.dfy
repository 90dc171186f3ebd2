/** Every query of every preparer, every end of a session and every arriving row keeps the invariant. */
module PartitionInvariant {
  import opened Prelude
  import opened LogEntry
  import opened PartitionPreparer

  lemma AttachDay(partitions: seq<Partition>, p: Partition)
    ensures AttachedDays(partitions + [p]) == AttachedDays(partitions) + {p.day}
  {
  }

  /** What a preparer that does not hold the default lock needs of the others' steps. */
  lemma FaithfulUnderChange(defaultRows: seq<Log>, attached: set<int>, rows: seq<Log>, more: set<int>, p: Preparer)
    requires IsFaithful(defaultRows, attached, p) && attached <= more
    requires IsPreparing(p.place) && p.alive ==> attached == more
    requires HoldsDefault(p.transaction) ==> rows == defaultRows
    ensures IsFaithful(rows, more, p)
  {
    hide HasRowIn, RowsIn, RowsNotIn, DayOf;
  }

  /** A step of one preparer that leaves rows and partitions alone. */
  lemma LocalStepKeeps(w: World, after: World, i: nat)
    requires Invariant(w) && i < |w.preparers| && Exclusive(after)
    requires after.defaultRows == w.defaultRows && after.partitions == w.partitions
    requires |after.preparers| == |w.preparers| && after.preparers == w.preparers[i := after.preparers[i]]
    requires IsFaithful(w.defaultRows, AttachedDays(w.partitions), after.preparers[i])
    ensures Invariant(after)
  {
    hide IsFaithful, AttachedDays, Exclusive, DayOf;
  }

  lemma TryLockKeeps(w: World, i: nat, reply: Reply)
    requires Invariant(w) && Enabled(w, Step(i, reply)) && w.preparers[i].place.TryLock?
    ensures Invariant(TryLockStep(w, i, reply))
  {
    Faithful(w, i);
    hide AttachedDays, WellPlaced, DistinctDays, Skip;
    if reply.Failed? || w.lock.None? {
      LocalStepKeeps(w, TryLockStep(w, i, reply), i);
    }
  }

  lemma ReadKeeps(w: World, i: nat, reply: Reply)
    requires Invariant(w) && Enabled(w, Step(i, reply)) && w.preparers[i].place.ReadPartitions?
    ensures Invariant(SetPreparer(w, i, ReadStep(w, w.preparers[i], reply)))
  {
    Faithful(w, i);
    hide AttachedDays, WellPlaced, DistinctDays;
    var p := ReadStep(w, w.preparers[i], reply);
    if reply.Answered? {
      assert (set k | 0 <= k < p.next :: p.days[k]) <= p.existing;
      assert p.existing == p.existing + (set k | 0 <= k < p.next :: p.days[k]);
    }
    LocalStepKeeps(w, SetPreparer(w, i, p), i);
  }

  lemma LockDefaultKeeps(w: World, i: nat, reply: Reply)
    requires Invariant(w) && Enabled(w, Step(i, reply)) && w.preparers[i].place.LockDefault?
    ensures Invariant(LockDefaultStep(w, i, reply))
  {
    Faithful(w, i);
    hide AttachedDays, WellPlaced, DistinctDays, Skip;
    LocalStepKeeps(w, LockDefaultStep(w, i, reply), i);
  }

  lemma StatementKeepsFaithful(w: World, p: Preparer, reply: Reply)
    requires IsFaithful(w.defaultRows, AttachedDays(w.partitions), p)
    requires p.place.Begin? || p.place.CreateTable? || p.place.CheckOverlap? || p.place.MoveRows? || p.place.Attach?
    requires reply.Failed? || CanSucceed(w, p)
    ensures var q := StatementStep(w, p, reply);
            && IsFaithful(w.defaultRows, AttachedDays(w.partitions), q)
            && q.alive == p.alive && !q.place.TryLock? && !q.place.Finished?
            && HoldsDefault(q.transaction) == HoldsDefault(p.transaction)
  {
    hide AttachedDays, Skip, RowsIn, RowsNotIn, DayOf, HasRowIn, IsDayPlan;
  }

  lemma StatementKeeps(w: World, i: nat, reply: Reply)
    requires Invariant(w) && Enabled(w, Step(i, reply))
    requires var place := w.preparers[i].place;
             place.Begin? || place.CreateTable? || place.CheckOverlap? || place.MoveRows? || place.Attach?
    ensures Invariant(SetPreparer(w, i, StatementStep(w, w.preparers[i], reply)))
  {
    Faithful(w, i);
    hide IsFaithful, AttachedDays, WellPlaced, DistinctDays, StatementStep;
    StatementKeepsFaithful(w, w.preparers[i], reply);
    LocalStepKeeps(w, SetPreparer(w, i, StatementStep(w, w.preparers[i], reply)), i);
  }

  lemma RollbackKeeps(w: World, i: nat, reply: Reply)
    requires Invariant(w) && Enabled(w, Step(i, reply)) && w.preparers[i].place.Rollback?
    ensures Invariant(RollbackStep(w, i, reply))
  {
    Faithful(w, i);
    hide AttachedDays, WellPlaced, DistinctDays, Skip;
    LocalStepKeeps(w, RollbackStep(w, i, reply), i);
  }

  lemma UnlockKeeps(w: World, i: nat, reply: Reply)
    requires Invariant(w) && Enabled(w, Step(i, reply)) && w.preparers[i].place.Unlock?
    ensures Invariant(UnlockStep(w, i, reply))
  {
    Faithful(w, i);
    hide AttachedDays, WellPlaced, DistinctDays, Skip;
    LocalStepKeeps(w, UnlockStep(w, i, reply), i);
  }

  lemma SessionEndKeeps(w: World, i: nat)
    requires Invariant(w) && i < |w.preparers| && w.preparers[i].alive
    ensures Invariant(SessionEndStep(w, i))
  {
    Faithful(w, i);
    hide AttachedDays, WellPlaced, DistinctDays, Skip;
    LocalStepKeeps(w, SessionEndStep(w, i), i);
  }

  /** What COMMIT does to the tables. */
  lemma CommittedTables(w: World, i: nat, reply: Reply)
    requires Invariant(w) && Enabled(w, Step(i, reply)) && w.preparers[i].place.Commit? && !reply.Failed?
    ensures var p, after := w.preparers[i], CommitStep(w, i, reply);
            && p.days[p.next] !in AttachedDays(w.partitions)
            && AttachedDays(after.partitions) == AttachedDays(w.partitions) + {p.days[p.next]}
            && WellPlaced(after) && DistinctDays(after.partitions)
            && AllRows(after) == AllRows(w)
  {
    CommitFacts(w, i);
    hide IsMoved, AttachedDays, WellPlaced, DistinctDays, AllRows, Invariant, IsFaithful, Skip;
    var p := w.preparers[i];
    AttachMovedRows(w, CommitStep(w, i, reply), p.transaction, p.days[p.next]);
  }

  lemma AttachMovedRows(w: World, after: World, t: Transaction, day: int)
    requires WellPlaced(w) && DistinctDays(w.partitions)
    requires IsMoved(w.defaultRows, t, day) && day !in AttachedDays(w.partitions)
    requires after.defaultRows == if t.rest.Some? then t.rest.value else w.defaultRows
    requires after.partitions == w.partitions + [Partition(day, t.moved)]
    ensures AttachedDays(after.partitions) == AttachedDays(w.partitions) + {day}
    ensures WellPlaced(after) && DistinctDays(after.partitions) && AllRows(after) == AllRows(w)
  {
    hide RowsIn, RowsNotIn, DayOf, HasRowIn, RowsOf, AttachedDays, DistinctDays;
    var moved := Partition(day, t.moved);
    AttachDay(w.partitions, moved);
    SplitConserves(w.defaultRows, day);
    NoRowIn(w.defaultRows, day);
    RowsOfAppend(w.partitions, moved);
    NewDayIsDistinct(w.partitions, moved);
  }

  lemma CommitFacts(w: World, i: nat)
    requires Invariant(w) && i < |w.preparers| && w.preparers[i].alive && w.preparers[i].place.Commit? &&
      HasDay(w.preparers[i])
    ensures WellPlaced(w) && DistinctDays(w.partitions)
    ensures var p := w.preparers[i];
            IsMoved(w.defaultRows, p.transaction, p.days[p.next]) && p.days[p.next] !in AttachedDays(w.partitions)
  {
    Faithful(w, i);
    hide RowsIn, RowsNotIn, DayOf, AttachedDays, HasRowIn, WellPlaced, DistinctDays, IsMoved, Exclusive;
  }

  lemma NewDayIsDistinct(partitions: seq<Partition>, p: Partition)
    requires DistinctDays(partitions) && p.day !in AttachedDays(partitions)
    ensures DistinctDays(partitions + [p])
  {
    forall i | 0 <= i < |partitions| ensures partitions[i].day != p.day {
      assert partitions[i] in partitions;
    }
  }

  lemma {:induction false} RowsOfAppend(partitions: seq<Partition>, p: Partition)
    ensures RowsOf(partitions + [p]) == RowsOf(partitions) + multiset(p.rows)
  {
    if partitions == [] {
      assert partitions + [p] == [p] && [p][1..] == [];
    } else {
      RowsOfAppend(partitions[1..], p);
      assert (partitions + [p])[1..] == partitions[1..] + [p];
    }
  }

  /** The committing preparer's own part. */
  lemma CommitterStaysFaithful(rows: seq<Log>, attached: set<int>, after: seq<Log>, more: set<int>, p: Preparer,
                               reply: Reply)
    requires IsFaithful(rows, attached, p) && p.place.Commit? && p.alive && HasDay(p)
    requires more == attached + {p.days[p.next]}
    ensures var done := p.(transaction := NoTransaction);
            IsFaithful(after, more, if reply.Answered? then GoOn(done, p.next + 1) else GiveUp(done, Rollback))
  {
    hide RowsIn, RowsNotIn, DayOf, HasRowIn, IsMoved, Skip, IsDayPlan;
    if reply.Answered? {
      SkippedDays(p, GoOn(p.(transaction := NoTransaction), p.next + 1));
    }
  }

  lemma CommitKeepsFaithful(w: World, i: nat, reply: Reply)
    requires Invariant(w) && Enabled(w, Step(i, reply)) && w.preparers[i].place.Commit? && !reply.Failed?
    ensures var after := CommitStep(w, i, reply);
            IsFaithful(after.defaultRows, AttachedDays(after.partitions), after.preparers[i])
  {
    Faithful(w, i);
    CommittedTables(w, i, reply);
    hide AttachedDays, WellPlaced, DistinctDays, AllRows, IsFaithful, Invariant, Skip, GoOn, GiveUp;
    var after := CommitStep(w, i, reply);
    CommitterStaysFaithful(w.defaultRows, AttachedDays(w.partitions),
                           after.defaultRows, AttachedDays(after.partitions), w.preparers[i], reply);
  }

  lemma SkippedDays(p: Preparer, q: Preparer)
    requires HasDay(p) && q.next == Skip(p.days, p.existing, p.next + 1)
    ensures p.existing + (set k | 0 <= k < q.next :: p.days[k])
         == p.existing + (set k | 0 <= k < p.next :: p.days[k]) + {p.days[p.next]}
  {
    assert forall k :: p.next < k < q.next ==> p.days[k] in p.existing;
  }

  lemma CommitKeeps(w: World, i: nat, reply: Reply)
    requires Invariant(w) && Enabled(w, Step(i, reply)) && w.preparers[i].place.Commit?
    ensures Invariant(CommitStep(w, i, reply))
  {
    Faithful(w, i);
    var after := CommitStep(w, i, reply);
    if reply.Failed? {
      hide AttachedDays, WellPlaced, DistinctDays, Skip;
      LocalStepKeeps(w, after, i);
    } else {
      CommittedTables(w, i, reply);
      CommitKeepsFaithful(w, i, reply);
      CommitKeepsExclusive(w, i, reply);
      hide WellPlaced, DistinctDays, AttachedDays, Skip, AllRows, RowsIn, RowsNotIn, HasRowIn, Exclusive;
      forall j | 0 <= j < |w.preparers|
        ensures IsFaithful(after.defaultRows, AttachedDays(after.partitions), after.preparers[j])
      {
        if j != i {
          OthersStayFaithful(w, i, reply, j);
        }
      }
    }
  }

  /** A preparer that is not committing is at work nowhere, so the new tables suit it. */
  lemma OthersStayFaithful(w: World, i: nat, reply: Reply, j: nat)
    requires Invariant(w) && Enabled(w, Step(i, reply)) && w.preparers[i].place.Commit? && !reply.Failed?
    requires j < |w.preparers| && j != i
    ensures var after := CommitStep(w, i, reply);
            IsFaithful(after.defaultRows, AttachedDays(after.partitions), after.preparers[j])
  {
    Faithful(w, i);
    Faithful(w, j);
    CommittedTables(w, i, reply);
    hide WellPlaced, DistinctDays, AttachedDays, Skip, AllRows, IsFaithful;
    var after := CommitStep(w, i, reply);
    assert !InCriticalSection(w.preparers[j]) && !HoldsDefault(w.preparers[j].transaction) by { OneAtWork(w, i, j); }
    FaithfulUnderChange(w.defaultRows, AttachedDays(w.partitions), after.defaultRows, AttachedDays(after.partitions),
      w.preparers[j]);
  }

  lemma OneAtWork(w: World, i: nat, j: nat)
    requires Invariant(w) && i < |w.preparers| && j < |w.preparers| && j != i
    requires w.preparers[i].alive && w.preparers[i].place.Commit? && HasDay(w.preparers[i])
    ensures !InCriticalSection(w.preparers[j]) && !HoldsDefault(w.preparers[j].transaction)
  {
    Faithful(w, i);
    hide WellPlaced, DistinctDays, AttachedDays;
  }

  lemma CommitKeepsExclusive(w: World, i: nat, reply: Reply)
    requires Invariant(w) && Enabled(w, Step(i, reply)) && w.preparers[i].place.Commit? && !reply.Failed?
    ensures Exclusive(CommitStep(w, i, reply))
  {
    hide WellPlaced, DistinctDays, AttachedDays, IsFaithful;
  }

  lemma {:induction false} RouteShape(partitions: seq<Partition>, row: Log)
    ensures var after := RouteInto(partitions, row);
            && |after| == |partitions|
            && (forall k :: 0 <= k < |partitions| ==> after[k].day == partitions[k].day)
            && (forall k :: 0 <= k < |partitions| ==>
                  after[k].rows == partitions[k].rows ||
                    (after[k].rows == partitions[k].rows + [row] && partitions[k].day == DayOf(row)))
  {
    hide DayOf;
    if partitions != [] && partitions[0].day != DayOf(row) {
      RouteShape(partitions[1..], row);
      assert forall k :: 1 <= k < |partitions| ==> partitions[k] == partitions[1..][k - 1];
    }
  }

  lemma {:induction false} RouteAddsRow(partitions: seq<Partition>, row: Log)
    requires DayOf(row) in AttachedDays(partitions)
    ensures RowsOf(RouteInto(partitions, row)) == RowsOf(partitions) + multiset{row}
  {
    hide DayOf;
    if partitions[0].day != DayOf(row) {
      assert DayOf(row) in AttachedDays(partitions[1..]);
      RouteAddsRow(partitions[1..], row);
      assert RouteInto(partitions, row)[1..] == RouteInto(partitions[1..], row);
    } else {
      assert RouteInto(partitions, row)[1..] == partitions[1..];
      assert multiset(partitions[0].rows + [row]) == multiset(partitions[0].rows) + multiset{row};
    }
  }

  lemma SameDays(partitions: seq<Partition>, after: seq<Partition>)
    requires |after| == |partitions| && forall k :: 0 <= k < |partitions| ==> after[k].day == partitions[k].day
    ensures AttachedDays(after) == AttachedDays(partitions)
    ensures DistinctDays(partitions) ==> DistinctDays(after)
  {
    forall day ensures day in AttachedDays(after) <==> day in AttachedDays(partitions) {
      if day in AttachedDays(after) {
        var k :| 0 <= k < |after| && after[k].day == day;
        assert partitions[k] in partitions;
      }
    }
  }

  lemma InsertRowKeeps(w: World, row: Log)
    requires Invariant(w) && CanInsert(w, row)
    ensures Invariant(InsertRow(w, row)) && AllRows(InsertRow(w, row)) == AllRows(w) + multiset{row}
  {
    var after := InsertRow(w, row);
    if DayOf(row) in AttachedDays(w.partitions) {
      RouteShape(w.partitions, row);
      RouteAddsRow(w.partitions, row);
      SameDays(w.partitions, after.partitions);
      RoutedIsWellPlaced(w, row);
      hide AttachedDays, IsFaithful, WellPlaced, DistinctDays, DayOf;
    } else {
      hide AttachedDays, IsFaithful, DistinctDays, DayOf;
      assert WellPlaced(after);
      forall j | 0 <= j < |w.preparers|
        ensures IsFaithful(after.defaultRows, AttachedDays(after.partitions), after.preparers[j])
      {
        Faithful(w, j);
        FaithfulUnderChange(w.defaultRows, AttachedDays(w.partitions), after.defaultRows, AttachedDays(w.partitions),
          w.preparers[j]);
      }
    }
  }

  lemma RoutedIsWellPlaced(w: World, row: Log)
    requires WellPlaced(w) && DayOf(row) in AttachedDays(w.partitions)
    ensures WellPlaced(InsertRow(w, row))
  {
    RouteShape(w.partitions, row);
    hide DayOf, RowsOf, AttachedDays, RouteInto;
    var after := InsertRow(w, row);
    SameDays(w.partitions, after.partitions);
    forall p, r | p in after.partitions && r in p.rows ensures DayOf(r) == p.day {
      var k :| 0 <= k < |after.partitions| && after.partitions[k] == p;
      assert w.partitions[k] in w.partitions;
    }
  }

  /** Every event keeps the invariant. */
  lemma NextKeepsInvariant(w: World, e: Event)
    requires Invariant(w) && Enabled(w, e)
    ensures Invariant(Next(w, e))
  {
    hide Invariant, CanSucceed, CanInsert, TryLockStep, ReadStep, LockDefaultStep, StatementStep, CommitStep,
      RollbackStep, UnlockStep, SessionEndStep, InsertRow;
    match e
    case RowArrives(row) =>
      assert CanInsert(w, row);
      InsertRowKeeps(w, row);
    case SessionEnds(i) => SessionEndKeeps(w, i);
    case Step(i, reply) =>
      var place := w.preparers[i].place;
      if place.TryLock? {
        TryLockKeeps(w, i, reply);
      } else if place.ReadPartitions? {
        ReadKeeps(w, i, reply);
      } else if place.LockDefault? {
        LockDefaultKeeps(w, i, reply);
      } else if place.Commit? {
        CommitKeeps(w, i, reply);
      } else if place.Rollback? {
        RollbackKeeps(w, i, reply);
      } else if place.Unlock? {
        UnlockKeeps(w, i, reply);
      } else {
        StatementKeeps(w, i, reply);
      }
  }

  /** No event loses, duplicates or changes a row: only an arriving row adds itself. */
  lemma NextConservesRows(w: World, e: Event)
    requires Invariant(w) && Enabled(w, e)
    ensures AllRows(Next(w, e)) == AllRows(w) + if e.RowArrives? then multiset{e.row} else multiset{}
  {
    hide Invariant, AllRows, CanSucceed, CanInsert, InsertRow;
    match e
    case RowArrives(row) =>
      assert CanInsert(w, row);
      InsertRowKeeps(w, row);
    case SessionEnds(i) => SameTables(w, Next(w, e));
    case Step(i, reply) =>
      if w.preparers[i].place.Commit? && !reply.Failed? {
        CommittedTables(w, i, reply);
      } else {
        SameTables(w, Next(w, e));
      }
  }

  /** Only a COMMIT that took effect attaches anything, and it attaches its session's planned day. */
  lemma OnlyCommitsAttach(w: World, e: Event)
    requires Invariant(w) && Enabled(w, e)
    ensures AttachedDays(Next(w, e).partitions) == AttachedDays(w.partitions) +
              if e.Step? && w.preparers[e.preparer].place.Commit? && !e.reply.Failed?
              then {w.preparers[e.preparer].days[w.preparers[e.preparer].next]} else {}
  {
    hide Invariant, AttachedDays, CanSucceed, CanInsert;
    match e
    case RowArrives(row) =>
      RouteShape(w.partitions, row);
      SameDays(w.partitions, RouteInto(w.partitions, row));
    case SessionEnds(_) =>
    case Step(i, reply) =>
      if w.preparers[i].place.Commit? && !reply.Failed? {
        CommittedTables(w, i, reply);
      }
  }

  lemma SameTables(w: World, after: World)
    requires after.defaultRows == w.defaultRows && after.partitions == w.partitions
    ensures AllRows(after) == AllRows(w)
  {
  }
}
