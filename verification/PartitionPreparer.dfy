/**
 src/database/partitions/partition-preparer.ts: any number of preparers attach daily partitions under one
 advisory lock, each partition in a transaction that moves the default partition's rows of that day.
 Writers insert rows meanwhile; every query may fail, commits and unlocks may lose their reply, and
 sessions may die. A partition is known by its UTC day, which its name identifies.
 */
module PartitionPreparer {
  import opened Prelude
  import opened LogEntry

  const MICROS_PER_DAY := 86_400_000_000

  function DayOf(row: Log): int {
    row.timestamp / MICROS_PER_DAY
  }

  // ---------------------------------------------------------------- rows of a day

  function RowsIn(rows: seq<Log>, day: int): seq<Log> {
    if rows == [] then [] else (if DayOf(rows[0]) == day then [rows[0]] else []) + RowsIn(rows[1..], day)
  }

  function RowsNotIn(rows: seq<Log>, day: int): seq<Log> {
    if rows == [] then [] else (if DayOf(rows[0]) == day then [] else [rows[0]]) + RowsNotIn(rows[1..], day)
  }

  predicate HasRowIn(rows: seq<Log>, day: int) {
    exists i :: 0 <= i < |rows| && DayOf(rows[i]) == day
  }

  /** DELETE ... RETURNING splits a table: nothing is lost and nothing appears. */
  lemma {:induction false} SplitConserves(rows: seq<Log>, day: int)
    ensures multiset(RowsIn(rows, day)) + multiset(RowsNotIn(rows, day)) == multiset(rows)
    ensures forall row :: row in RowsIn(rows, day) ==> DayOf(row) == day
    ensures forall row :: row in RowsNotIn(rows, day) ==> DayOf(row) != day && row in rows
  {
    hide DayOf;
    if rows != [] {
      SplitConserves(rows[1..], day);
      assert rows == [rows[0]] + rows[1..];
    }
  }

  lemma NoRowIn(rows: seq<Log>, day: int)
    ensures !HasRowIn(rows, day) <==> forall row :: row in rows ==> DayOf(row) != day
  {
    hide DayOf;
    forall i | 0 <= i < |rows| ensures rows[i] in rows {
    }
  }

  // ---------------------------------------------------------------- state

  /** An attached daily partition. */
  datatype Partition = Partition(day: int, rows: seq<Log>)

  /**
   The open transaction of a session: whether it holds ACCESS EXCLUSIVE on the default partition, the
   table it created, the rows it moved there and what it left in the default, and the attachment.
   */
  datatype Transaction =
    | NoTransaction
    | Open(locked: bool, table: Option<int>, moved: seq<Log>, rest: Option<seq<Log>>, attached: bool)
    | Aborted(locked: bool)

  datatype Place =
    | TryLock | ReadPartitions
    | Begin | LockDefault | CreateTable | CheckOverlap | MoveRows | Attach | Commit | Rollback
    | Unlock | Finished

  datatype Preparer = Preparer(
    days: seq<int>, place: Place, failed: bool, alive: bool, transaction: Transaction,
    hasRead: bool, existing: set<int>, next: nat)

  datatype World = World(
    defaultRows: seq<Log>, partitions: seq<Partition>,
    lock: Option<nat>, defaultLock: Option<nat>, preparers: seq<Preparer>)

  datatype Reply = Answered | Failed | Lost

  datatype Event = Step(preparer: nat, reply: Reply) | SessionEnds(preparer: nat) | RowArrives(row: Log)

  function AttachedDays(partitions: seq<Partition>): set<int> {
    set p | p in partitions :: p.day
  }

  /** No two planned partitions share a name. */
  ghost predicate IsDayPlan(days: seq<int>) {
    forall i, j :: 0 <= i < j < |days| ==> days[i] != days[j]
  }

  /** The next planned day that did not exist when the partitions were read. */
  function Skip(days: seq<int>, existing: set<int>, from: nat): (next: nat)
    requires from <= |days|
    ensures from <= next <= |days|
    ensures next < |days| ==> days[next] !in existing
    ensures forall i :: from <= i < next ==> days[i] in existing
    decreases |days| - from
  {
    if from < |days| && days[from] in existing then Skip(days, existing, from + 1) else from
  }

  predicate HasDay(p: Preparer) {
    p.next < |p.days|
  }

  /** Whether the server can carry the preparer's query out. */
  predicate CanSucceed(w: World, p: Preparer) {
    match p.place
    case LockDefault => p.alive && p.transaction.Open? && w.defaultLock.None?
    case CreateTable => p.alive && p.transaction.Open? && HasDay(p) && p.days[p.next] !in AttachedDays(w.partitions)
    case CheckOverlap => p.alive && p.transaction.Open? && HasDay(p)
    case MoveRows => p.alive && p.transaction.Open? && HasDay(p)
    case Attach =>
      && p.alive && p.transaction.Open? && HasDay(p) && p.days[p.next] !in AttachedDays(w.partitions)
      && !HasRowIn(if p.transaction.rest.Some? then p.transaction.rest.value else w.defaultRows, p.days[p.next])
    case Commit => p.alive && p.transaction.Open? && HasDay(p)
    case Unlock => p.alive && !p.transaction.Aborted?
    case _ => p.alive
  }

  /** Where a new row goes: its day's partition if attached, else the default, unless that is locked. */
  predicate CanInsert(w: World, row: Log) {
    DayOf(row) in AttachedDays(w.partitions) || w.defaultLock.None?
  }

  predicate Enabled(w: World, e: Event) {
    match e
    case Step(i, reply) =>
      i < |w.preparers| && !w.preparers[i].place.Finished? && (reply.Failed? || CanSucceed(w, w.preparers[i]))
    case SessionEnds(i) => i < |w.preparers| && w.preparers[i].alive
    case RowArrives(row) => CanInsert(w, row)
  }

  // ---------------------------------------------------------------- steps

  function SetPreparer(w: World, i: nat, p: Preparer): World
    requires i < |w.preparers|
  {
    w.(preparers := w.preparers[i := p])
  }

  function GiveUp(p: Preparer, place: Place): Preparer {
    p.(place := place, failed := true)
  }

  function AfterError(t: Transaction): Transaction {
    if t.Open? then Aborted(t.locked) else t
  }

  /** The transaction ends: its lock on the default partition goes with it. */
  function EndTransaction(w: World, i: nat): World
    requires i < |w.preparers|
  {
    SetPreparer(w, i, w.preparers[i].(transaction := NoTransaction))
      .(defaultLock := if w.defaultLock == Some(i) then None else w.defaultLock)
  }

  function TryLockStep(w: World, i: nat, reply: Reply): World
    requires i < |w.preparers|
  {
    var p := w.preparers[i];
    if reply.Failed? || (reply.Lost? && w.lock.Some?) then SetPreparer(w, i, GiveUp(p, Finished))
    else if w.lock.Some? then w
    else SetPreparer(w, i, if reply.Lost? then GiveUp(p, Finished) else p.(place := ReadPartitions)).(lock := Some(i))
  }

  function GoOn(p: Preparer, from: nat): Preparer
    requires from <= |p.days|
  {
    var next := Skip(p.days, p.existing, from);
    p.(next := next, place := if next < |p.days| then Begin else Unlock)
  }

  function ReadStep(w: World, p: Preparer, reply: Reply): Preparer {
    if reply.Answered? then GoOn(p.(hasRead := true, existing := AttachedDays(w.partitions)), 0) else GiveUp(p, Unlock)
  }

  function LockDefaultStep(w: World, i: nat, reply: Reply): World
    requires i < |w.preparers| && (!reply.Failed? ==> w.preparers[i].transaction.Open?)
  {
    var p := w.preparers[i];
    if reply.Failed? then SetPreparer(w, i, GiveUp(p.(transaction := AfterError(p.transaction)), Rollback)) else
    var locked := p.(transaction := p.transaction.(locked := true));
    SetPreparer(w, i, if reply.Answered? then locked.(place := CreateTable)
      else GiveUp(locked, Rollback)).(defaultLock := Some(i))
  }

  /** The statements that touch only the session's own transaction. */
  function StatementStep(w: World, p: Preparer, reply: Reply): Preparer
    requires !reply.Failed? ==> CanSucceed(w, p)
  {
    var started := Open(false, None, [], None, false);
    match (p.place, reply)
    case (Begin, Answered) => p.(transaction := started, place := LockDefault)
    case (Begin, Lost) => GiveUp(p.(transaction := started), Rollback)
    case (Begin, Failed) => GiveUp(p, Rollback)
    case (CreateTable, Answered) =>
      p.(transaction := p.transaction.(table := Some(p.days[p.next])), place := CheckOverlap)
    case (CheckOverlap, Answered) => p.(place := if HasRowIn(w.defaultRows, p.days[p.next]) then MoveRows else Attach)
    case (MoveRows, Answered) =>
      p.(transaction := p.transaction.(moved := RowsIn(w.defaultRows, p.days[p.next]),
                                       rest := Some(RowsNotIn(w.defaultRows, p.days[p.next]))),
         place := Attach)
    case (Attach, Answered) => p.(transaction := p.transaction.(attached := true), place := Commit)
    case (_, _) => GiveUp(p.(transaction := AfterError(p.transaction)), Rollback)
  }

  function CommitStep(w: World, i: nat, reply: Reply): World
    requires i < |w.preparers| && (!reply.Failed? ==> w.preparers[i].transaction.Open? && HasDay(w.preparers[i]))
  {
    var p := w.preparers[i];
    var ended := EndTransaction(w, i);
    var done := ended.preparers[i];
    if reply.Failed? then SetPreparer(ended, i, GiveUp(done, Rollback)) else
    var after := SetPreparer(ended, i, if reply.Answered? then GoOn(done, done.next + 1) else GiveUp(done, Rollback));
    after.(defaultRows := if p.transaction.rest.Some? then p.transaction.rest.value else w.defaultRows,
           partitions := w.partitions + [Partition(p.days[p.next], p.transaction.moved)])
  }

  function RollbackStep(w: World, i: nat, reply: Reply): World
    requires i < |w.preparers|
  {
    var ended := if reply.Failed? then w else EndTransaction(w, i);
    SetPreparer(ended, i, GiveUp(ended.preparers[i], Unlock))
  }

  function UnlockStep(w: World, i: nat, reply: Reply): World
    requires i < |w.preparers|
  {
    var p := w.preparers[i];
    var after := SetPreparer(w, i, if reply.Answered? then p.(place := Finished) else GiveUp(p, Finished));
    if reply.Failed? then after else after.(lock := if w.lock == Some(i) then None else w.lock)
  }

  function SessionEndStep(w: World, i: nat): World
    requires i < |w.preparers|
  {
    var ended := EndTransaction(w, i);
    SetPreparer(ended, i, ended.preparers[i].(alive := false)).(lock := if w.lock == Some(i) then None else w.lock)
  }

  /** Tuple routing of an INSERT into the partitioned table. */
  function RouteInto(partitions: seq<Partition>, row: Log): seq<Partition> {
    if partitions == [] then []
    else if partitions[0].day == DayOf(row) then [partitions[0].(rows := partitions[0].rows + [row])] + partitions[1..]
    else [partitions[0]] + RouteInto(partitions[1..], row)
  }

  function InsertRow(w: World, row: Log): World {
    if DayOf(row) in AttachedDays(w.partitions) then w.(partitions := RouteInto(w.partitions, row))
    else w.(defaultRows := w.defaultRows + [row])
  }

  function Next(w: World, e: Event): World
    requires Enabled(w, e)
  {
    match e
    case RowArrives(row) => InsertRow(w, row)
    case SessionEnds(i) => SessionEndStep(w, i)
    case Step(i, reply) =>
      var p := w.preparers[i];
      match p.place
      case TryLock => TryLockStep(w, i, reply)
      case ReadPartitions => SetPreparer(w, i, ReadStep(w, p, reply))
      case LockDefault => LockDefaultStep(w, i, reply)
      case Commit => CommitStep(w, i, reply)
      case Rollback => RollbackStep(w, i, reply)
      case Unlock => UnlockStep(w, i, reply)
      case _ => SetPreparer(w, i, StatementStep(w, p, reply))
  }

  // ---------------------------------------------------------------- what every state satisfies

  function RowsOf(partitions: seq<Partition>): multiset<Log> {
    if partitions == [] then multiset{} else multiset(partitions[0].rows) + RowsOf(partitions[1..])
  }

  function AllRows(w: World): multiset<Log> {
    multiset(w.defaultRows) + RowsOf(w.partitions)
  }

  /** Each row sits in the attached partition of its day, or else in the default. */
  ghost predicate WellPlaced(w: World) {
    && (forall p, row :: p in w.partitions && row in p.rows ==> DayOf(row) == p.day)
    && (forall row :: row in w.defaultRows ==> DayOf(row) !in AttachedDays(w.partitions))
  }

  /** No day has been attached twice. */
  ghost predicate DistinctDays(partitions: seq<Partition>) {
    forall i, j :: 0 <= i < j < |partitions| ==> partitions[i].day != partitions[j].day
  }

  predicate InCriticalSection(p: Preparer) {
    p.alive && !p.place.TryLock? && !p.place.Finished?
  }

  predicate HoldsDefault(t: Transaction) {
    (t.Open? || t.Aborted?) && t.locked
  }

  ghost predicate Exclusive(w: World) {
    && (forall i :: 0 <= i < |w.preparers| && InCriticalSection(w.preparers[i]) ==> w.lock == Some(i))
    && (w.lock.Some? ==>
         w.lock.value < |w.preparers| && w.preparers[w.lock.value].alive && !w.preparers[w.lock.value].place.TryLock?)
    && (forall i :: 0 <= i < |w.preparers| && HoldsDefault(w.preparers[i].transaction) ==> w.defaultLock == Some(i))
    && (w.defaultLock.Some? ==>
         w.defaultLock.value < |w.preparers| && HoldsDefault(w.preparers[w.defaultLock.value].transaction))
  }

  predicate IsPreparing(place: Place) {
    place.Begin? || place.LockDefault? || place.CreateTable? || place.CheckOverlap? || place.MoveRows? ||
      place.Attach? || place.Commit?
  }

  /** What the open transaction holds, place by place. */
  ghost predicate TransactionFits(defaultRows: seq<Log>, p: Preparer)
    requires HasDay(p)
  {
    var t, day := p.transaction, p.days[p.next];
    match p.place
    case Begin => t.NoTransaction?
    case LockDefault => t == Open(false, None, [], None, false)
    case CreateTable => t == Open(true, None, [], None, false)
    case CheckOverlap => t == Open(true, Some(day), [], None, false)
    case MoveRows => t == Open(true, Some(day), [], None, false)
    case Attach => IsMoved(defaultRows, t, day) && !t.attached
    case Commit => IsMoved(defaultRows, t, day) && t.attached
    case _ => true
  }

  /** The transaction holds the locked default's rows of the day, all of them. */
  ghost predicate IsMoved(defaultRows: seq<Log>, t: Transaction, day: int) {
    && t.Open? && t.locked && t.table == Some(day)
    && (if t.rest.None? then t.moved == [] && !HasRowIn(defaultRows, day)
        else t.moved == RowsIn(defaultRows, day) && t.rest.value == RowsNotIn(defaultRows, day))
  }

  ghost predicate IsFaithful(defaultRows: seq<Log>, attached: set<int>, p: Preparer) {
    && IsDayPlan(p.days)
    && (p.transaction.NoTransaction? || p.alive)
    && (p.place.TryLock? || p.place.ReadPartitions? ==> p.transaction.NoTransaction? && !p.hasRead)
    && (!p.hasRead ==> p.next == 0)
    && p.next <= |p.days|
    && (p.hasRead ==> forall i :: 0 <= i < p.next ==> p.days[i] in attached)
    && (IsPreparing(p.place) ==> p.hasRead && HasDay(p) && p.days[p.next] !in p.existing)
    && (IsPreparing(p.place) && p.alive ==>
          && attached == p.existing + (set i | 0 <= i < p.next :: p.days[i])
          && TransactionFits(defaultRows, p))
    && ((p.place.Unlock? || p.place.Finished?) && !p.failed ==> p.hasRead && p.next == |p.days|)
  }

  ghost predicate Invariant(w: World) {
    && WellPlaced(w)
    && DistinctDays(w.partitions)
    && Exclusive(w)
    && forall i :: 0 <= i < |w.preparers| ==> IsFaithful(w.defaultRows, AttachedDays(w.partitions), w.preparers[i])
  }

  // ---------------------------------------------------------------- the guards always suffice

  /**
   A preparer at work finds its day not attached and, when it attaches, no row of that day left in the
   default: neither CREATE nor ATTACH can be refused for those reasons.
   */
  lemma CreateAndAttachSucceed(w: World, i: nat)
    requires Invariant(w) && i < |w.preparers| && w.preparers[i].alive
    requires w.preparers[i].place.CreateTable? || w.preparers[i].place.Attach?
    ensures CanSucceed(w, w.preparers[i])
  {
    Faithful(w, i);
    hide Invariant, DayOf, AttachedDays, HasRowIn, IsMoved;
    var p := w.preparers[i];
    if p.place.Attach? {
      MovedLeavesNone(w.defaultRows, p.transaction, p.days[p.next]);
    }
  }

  lemma MovedLeavesNone(defaultRows: seq<Log>, t: Transaction, day: int)
    requires IsMoved(defaultRows, t, day)
    ensures !HasRowIn(if t.rest.Some? then t.rest.value else defaultRows, day)
  {
    hide RowsIn, RowsNotIn, DayOf, HasRowIn;
    SplitConserves(defaultRows, day);
    NoRowIn(RowsNotIn(defaultRows, day), day);
  }

  lemma Faithful(w: World, i: nat)
    requires Invariant(w) && i < |w.preparers|
    ensures IsFaithful(w.defaultRows, AttachedDays(w.partitions), w.preparers[i])
  {
  }
}
