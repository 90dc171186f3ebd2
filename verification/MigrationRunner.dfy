/**
 src/database/migrations/migration-runner.ts: any number of runners, each with its own connection and
 its own local files, apply migrations under one session advisory lock. Every query may fail, a commit
 or an unlock may take effect although its reply is lost, and a session may die at any moment.
 */
module MigrationRunner {
  import opened Prelude

  /** A row of the history table. */
  datatype Row = Row(version: nat, filename: string, checksum: string)

  /** A local migration file; committing it leaves its effect in the database. */
  datatype Migration = Migration(row: Row, sql: string)

  /** What buildMigrationPlan delivers: versions in strictly ascending order. */
  ghost predicate IsPlan(files: seq<Migration>) {
    forall i, j :: 0 <= i < j < |files| ==> files[i].row.version < files[j].row.version
  }

  function RowsOf(migrations: seq<Migration>): (rows: seq<Row>)
    ensures |rows| == |migrations|
  {
    seq(|migrations|, i requires 0 <= i < |migrations| => migrations[i].row)
  }

  // ---------------------------------------------------------------- comparing history and files

  datatype Comparison =
    | PendingMigrations(pending: seq<Migration>)
    | MissingLocal(version: nat)
    | FilenameMismatch(version: nat)
    | ChecksumMismatch(version: nat)

  /** `localByVersion.get(version)`; the plan has each version once. */
  function LocalFile(files: seq<Migration>, version: nat): Option<Migration> {
    if files == [] then None
    else if files[|files| - 1].row.version == version then Some(files[|files| - 1])
    else LocalFile(files[..|files| - 1], version)
  }

  /** The complaint about one applied migration, if there is one. */
  function Mismatch(files: seq<Migration>, applied: Row): (m: Option<Comparison>)
    ensures m.Some? ==> !m.value.PendingMigrations?
  {
    var local := LocalFile(files, applied.version);
    if local.None? then Some(MissingLocal(applied.version))
    else if local.value.row.filename != applied.filename then Some(FilenameMismatch(applied.version))
    else if local.value.row.checksum != applied.checksum then Some(ChecksumMismatch(applied.version))
    else None
  }

  function FirstMismatch(files: seq<Migration>, history: seq<Row>): (m: Option<Comparison>)
    ensures m.Some? ==> !m.value.PendingMigrations?
  {
    if history == [] then None
    else if Mismatch(files, history[0]).Some? then Mismatch(files, history[0])
    else FirstMismatch(files, history[1..])
  }

  predicate IsApplied(history: seq<Row>, version: nat) {
    exists i :: 0 <= i < |history| && history[i].version == version
  }

  function NotApplied(files: seq<Migration>, history: seq<Row>): seq<Migration> {
    if files == [] then []
    else (if IsApplied(history, files[0].row.version) then [] else [files[0]]) + NotApplied(files[1..], history)
  }

  function FindPending(files: seq<Migration>, history: seq<Row>): Comparison {
    if FirstMismatch(files, history).Some? then FirstMismatch(files, history).value
    else PendingMigrations(NotApplied(files, history))
  }

  /** `new Map(migrations.map(...))` */
  method IndexByVersion(files: seq<Migration>) returns (localByVersion: map<nat, Migration>)
    ensures forall v: nat :: LocalFile(files, v) == if v in localByVersion then Some(localByVersion[v]) else None
  {
    localByVersion := map[];
    for i := 0 to |files|
      invariant forall v: nat ::
        LocalFile(files[..i], v) == if v in localByVersion then Some(localByVersion[v]) else None
    {
      localByVersion := localByVersion[files[i].row.version := files[i]];
      assert files[..i + 1][..i] == files[..i];
    }
    assert files[..|files|] == files;
  }

  method FilterNotApplied(files: seq<Migration>, history: seq<Row>,
                          appliedVersions: set<nat>) returns (pending: seq<Migration>)
    requires forall v: nat :: v in appliedVersions <==> IsApplied(history, v)
    ensures pending == NotApplied(files, history)
  {
    hide IsApplied, NotApplied;
    pending := [];
    assert files[0..] == files;
    for i := 0 to |files|
      invariant pending + NotApplied(files[i..], history) == NotApplied(files, history)
    {
      NotAppliedStep(files, history, i);
      if files[i].row.version !in appliedVersions {
        pending := pending + [files[i]];
      }
    }
    NoneNotApplied(history);
    assert files[|files|..] == [] && pending + [] == pending;
  }

  lemma NoneNotApplied(history: seq<Row>)
    ensures NotApplied([], history) == []
  {
  }

  lemma NotAppliedStep(files: seq<Migration>, history: seq<Row>, i: nat)
    requires i < |files|
    ensures NotApplied(files[i..], history)
         == (if IsApplied(history, files[i].row.version) then [] else [files[i]]) + NotApplied(files[i + 1..], history)
  {
    hide IsApplied;
    assert files[i..][0] == files[i] && files[i..][1..] == files[i + 1..];
  }

  /** `findPendingMigrations`: a Map of the local files, a Set of applied versions, one pass each. */
  method FindPendingMigrations(files: seq<Migration>, history: seq<Row>) returns (result: Comparison)
    ensures result == FindPending(files, history)
  {
    hide LocalFile, NotApplied;
    var localByVersion := IndexByVersion(files);
    var appliedVersions: set<nat> := {};
    for i := 0 to |history|
      invariant appliedVersions == set k | 0 <= k < i :: history[k].version
      invariant FirstMismatch(files, history) == FirstMismatch(files, history[i..])
    {
      var applied := history[i];
      assert history[i..][0] == applied && history[i..][1..] == history[i + 1..];
      if applied.version !in localByVersion {
        return MissingLocal(applied.version);
      }
      var local := localByVersion[applied.version];
      if local.row.filename != applied.filename {
        return FilenameMismatch(applied.version);
      }
      if local.row.checksum != applied.checksum {
        return ChecksumMismatch(applied.version);
      }
      appliedVersions := appliedVersions + {applied.version};
    }
    var pending := FilterNotApplied(files, history, appliedVersions);
    result := PendingMigrations(pending);
  }

  // ---------------------------------------------------------------- the protocol

  /** The open transaction of a session, with what it would add when committed. */
  datatype Transaction = NoTransaction | Open(effects: seq<Migration>, rows: seq<Row>) | Aborted

  /** Where a runner is: the query it is about to send. */
  datatype Place =
    | TryLock | LoadFiles
    | InitBegin | InitSchema | InitCommit | InitRollback
    | ReadHistory
    | ApplyBegin | ApplySql | ApplyInsert | ApplyCommit | ApplyRollback
    | Unlock | Finished

  datatype Runner = Runner(
    files: seq<Migration>, place: Place, failed: bool,
    alive: bool, transaction: Transaction,    // its session
    hasRead: bool, base: seq<Row>,            // the history it read
    pending: seq<Migration>, applied: nat,    // its list and how far it knows it got
    committed: nat)                           // how many of the list the server committed for it

  datatype World = World(
    historyReady: bool, history: seq<Row>, effects: seq<Migration>,
    lock: Option<nat>, runners: seq<Runner>)

  /** A query is answered, fails, or (commit and unlock) takes effect but its answer is lost. */
  datatype Reply = Answered | Failed | Lost

  datatype Event = Step(runner: nat, reply: Reply) | SessionEnds(runner: nat)

  predicate HasRoomFor(history: seq<Row>, row: Row) {
    forall i :: 0 <= i < |history| ==> history[i].version != row.version && history[i].filename != row.filename
  }

  /** Whether the server can carry the runner's query out. */
  predicate CanSucceed(w: World, r: Runner) {
    match r.place
    case LoadFiles => true
    case InitSchema => r.alive && r.transaction.Open?
    case InitCommit => r.alive && r.transaction.Open?
    case ApplySql => r.alive && r.transaction.Open?
    case ApplyInsert => r.alive && r.transaction.Open? && r.applied < |r.pending| &&
      HasRoomFor(w.history, r.pending[r.applied].row)
    case ApplyCommit => r.alive && r.transaction.Open?
    case Unlock => r.alive && !r.transaction.Aborted?
    case _ => r.alive
  }

  predicate Enabled(w: World, e: Event) {
    && e.runner < |w.runners|
    && match e
       case SessionEnds(i) => w.runners[i].alive
       case Step(i, reply) => !w.runners[i].place.Finished? && (reply.Failed? || CanSucceed(w, w.runners[i]))
  }

  function SetRunner(w: World, i: nat, r: Runner): World
    requires i < |w.runners|
  {
    w.(runners := w.runners[i := r])
  }

  function AfterError(t: Transaction): Transaction {
    if t.Open? then Aborted else t
  }

  /** The runner gives up its work and goes to the place that cleans up. */
  function GiveUp(r: Runner, place: Place): Runner {
    r.(place := place, failed := true)
  }

  function NextApply(r: Runner): Place {
    if r.applied < |r.pending| then ApplyBegin else Unlock
  }

  /** acquireLock: another session's lock means trying again; an error ends the run without unlocking. */
  function TryLockStep(w: World, i: nat, reply: Reply): World
    requires i < |w.runners|
  {
    var r := w.runners[i];
    if reply.Failed? || (reply.Lost? && w.lock.Some?) then SetRunner(w, i, GiveUp(r, Finished))
    else if w.lock.Some? then w
    else SetRunner(w, i, if reply.Lost? then GiveUp(r, Finished) else r.(place := LoadFiles)).(lock := Some(i))
  }

  function ReadHistoryStep(w: World, i: nat, reply: Reply): World
    requires i < |w.runners|
  {
    var r := w.runners[i];
    if !reply.Answered? then SetRunner(w, i, GiveUp(r, Unlock)) else
    var found := FindPending(r.files, w.history);
    if !found.PendingMigrations? then SetRunner(w, i, GiveUp(r, Unlock).(hasRead := true, base := w.history))
    else
      var ready := r.(hasRead := true, base := w.history, pending := found.pending, applied := 0);
      SetRunner(w, i, ready.(place := NextApply(ready)))
  }

  /** COMMIT of one migration: its effect and its history row appear together. */
  function CommitStep(w: World, i: nat, reply: Reply): World
    requires i < |w.runners|
  {
    var r := w.runners[i];
    var ended := r.(transaction := NoTransaction);
    if reply.Failed? || !r.transaction.Open? then SetRunner(w, i, GiveUp(ended, ApplyRollback)) else
    var counted := ended.(committed := r.committed + 1);
    var after := if reply.Lost? then GiveUp(counted, ApplyRollback)
                 else
                   var more := counted.(applied := r.applied + 1);
                   more.(place := NextApply(more));
    SetRunner(w, i, after).(history := w.history + r.transaction.rows, effects := w.effects + r.transaction.effects)
  }

  function UnlockStep(w: World, i: nat, reply: Reply): World
    requires i < |w.runners|
  {
    var r := w.runners[i];
    var after := SetRunner(w, i, if reply.Answered? then r.(place := Finished) else GiveUp(r, Finished));
    if reply.Failed? then after else after.(lock := if w.lock == Some(i) then None else w.lock)
  }

  /** BEGIN, a statement inside the transaction, or ROLLBACK. */
  function StatementStep(r: Runner, reply: Reply): Runner {
    var ok := reply.Answered?;
    match r.place
    case LoadFiles => if ok then r.(place := InitBegin) else GiveUp(r, Unlock)
    case InitBegin =>
      if ok then r.(transaction := Open([], []), place := InitSchema)
      else GiveUp(if reply.Lost? then r.(transaction := Open([], [])) else r, InitRollback)
    case InitSchema =>
      if ok then r.(place := InitCommit)
      else GiveUp(r.(transaction := AfterError(r.transaction)), InitRollback)
    case InitRollback => GiveUp(if reply.Failed? then r else r.(transaction := NoTransaction), Unlock)
    case ApplyBegin =>
      if ok then r.(transaction := Open([], []), place := ApplySql)
      else GiveUp(if reply.Lost? then r.(transaction := Open([], [])) else r, ApplyRollback)
    case ApplySql =>
      if ok && r.transaction.Open? && r.applied < |r.pending|
      then r.(transaction := r.transaction.(effects := r.transaction.effects + [r.pending[r.applied]]),
        place := ApplyInsert)
      else GiveUp(r.(transaction := AfterError(r.transaction)), ApplyRollback)
    case ApplyInsert =>
      if ok && r.transaction.Open? && r.applied < |r.pending|
      then r.(transaction := r.transaction.(rows := r.transaction.rows + [r.pending[r.applied].row]),
        place := ApplyCommit)
      else GiveUp(r.(transaction := AfterError(r.transaction)), ApplyRollback)
    case ApplyRollback => GiveUp(if reply.Failed? then r else r.(transaction := NoTransaction), Unlock)
    case _ => r
  }

  function InitCommitStep(w: World, i: nat, reply: Reply): World
    requires i < |w.runners|
  {
    var ended := w.runners[i].(transaction := NoTransaction);
    SetRunner(w, i, if reply.Answered? then ended.(place := ReadHistory) else GiveUp(ended, InitRollback))
      .(historyReady := w.historyReady || !reply.Failed?)
  }

  function Next(w: World, e: Event): World
    requires Enabled(w, e)
  {
    var i := e.runner;
    var r := w.runners[i];
    match e
    case SessionEnds(_) =>
      SetRunner(w, i, r.(alive := false, transaction := NoTransaction))
        .(lock := if w.lock == Some(i) then None else w.lock)
    case Step(_, reply) =>
      match r.place
      case TryLock => TryLockStep(w, i, reply)
      case InitCommit => InitCommitStep(w, i, reply)
      case ReadHistory => ReadHistoryStep(w, i, reply)
      case ApplyCommit => CommitStep(w, i, reply)
      case Unlock => UnlockStep(w, i, reply)
      case _ => SetRunner(w, i, StatementStep(r, reply))
  }

  // ---------------------------------------------------------------- what every state satisfies

  /** History rows and committed effects correspond one to one, and no version or file name repeats. */
  ghost predicate Consistent(w: World) {
    && w.history == RowsOf(w.effects)
    && forall i, j :: 0 <= i < j < |w.history| ==>
         w.history[i].version != w.history[j].version && w.history[i].filename != w.history[j].filename
  }

  predicate InCriticalSection(r: Runner) {
    r.alive && !r.place.TryLock? && !r.place.Finished?
  }

  /** The lock: a runner at work holds it, and its holder's session is alive. */
  ghost predicate Exclusive(w: World) {
    && (forall i :: 0 <= i < |w.runners| && InCriticalSection(w.runners[i]) ==> w.lock == Some(i))
    && (w.lock.Some? ==>
         w.lock.value < |w.runners| && w.runners[w.lock.value].alive && !w.runners[w.lock.value].place.TryLock?)
  }

  predicate IsApplying(place: Place) {
    place.ApplyBegin? || place.ApplySql? || place.ApplyInsert? || place.ApplyCommit?
  }

  predicate IsBeforeReading(place: Place) {
    place.TryLock? || place.LoadFiles? || place.InitBegin? || place.InitSchema? || place.InitCommit? ||
      place.InitRollback? || place.ReadHistory?
  }

  /** What the history holds of a runner's list: a prefix of it, right behind the history it read. */
  ghost predicate Contributed(history: seq<Row>, r: Runner) {
    && r.committed <= |r.pending|
    && r.base + RowsOf(r.pending[..r.committed]) <= history
  }

  ghost predicate TransactionFits(history: seq<Row>, r: Runner)
    requires r.applied < |r.pending|
  {
    var m := r.pending[r.applied];
    match r.place
    case ApplyBegin => r.transaction.NoTransaction?
    case ApplySql => r.transaction == Open([], [])
    case ApplyInsert => r.transaction == Open([m], [])
    case ApplyCommit => r.transaction == Open([m], [m.row]) && HasRoomFor(history, m.row)
    case _ => true
  }

  ghost predicate IsFaithful(history: seq<Row>, r: Runner) {
    && IsPlan(r.files)
    && (!r.hasRead ==> r.pending == [] && r.committed == 0)
    && (IsBeforeReading(r.place) ==> !r.hasRead)
    && (r.place.ReadHistory? ==> r.transaction.NoTransaction?)
    && (r.hasRead && FindPending(r.files, r.base).PendingMigrations? ==>
         r.pending == FindPending(r.files, r.base).pending)
    && (r.hasRead && !FindPending(r.files, r.base).PendingMigrations? ==>
         r.failed && r.pending == [] && !IsApplying(r.place))
    && (r.hasRead ==> Contributed(history, r))
    && (r.hasRead && InCriticalSection(r) ==> history == r.base + RowsOf(r.pending[..r.committed]))
    && (IsApplying(r.place) ==> r.hasRead && r.committed == r.applied < |r.pending|)
    && (IsApplying(r.place) && r.alive ==> TransactionFits(history, r))
    && (r.place.Unlock? && !r.failed ==> r.hasRead && r.committed == |r.pending|)
    && (r.place.Finished? && !r.failed ==> r.hasRead && r.committed == |r.pending|)
  }

  ghost predicate Invariant(w: World) {
    && Consistent(w)
    && Exclusive(w)
    && forall i :: 0 <= i < |w.runners| ==> IsFaithful(w.history, w.runners[i])
  }

  function NewRunner(files: seq<Migration>): Runner {
    Runner(files, TryLock, false, true, NoTransaction, false, [], [], 0, 0)
  }

  // ---------------------------------------------------------------- every step keeps it

  /** A runner that is not at work only loses sight of how much the history grows. */
  lemma FaithfulUnderGrowth(history: seq<Row>, more: seq<Row>, r: Runner)
    requires IsFaithful(history, r)
    requires !InCriticalSection(r)
    ensures IsFaithful(history + more, r)
  {
    hide FindPending, RowsOf;
  }

  /** The step of the runner itself, apart from what it does to the others. */
  lemma StatementKeepsFaithful(w: World, r: Runner, reply: Reply)
    requires IsFaithful(w.history, r)
    requires !r.place.Finished? && !r.place.TryLock? && !r.place.ReadHistory? && !r.place.ApplyCommit? &&
      !r.place.Unlock? && !r.place.InitCommit?
    requires reply.Failed? || CanSucceed(w, r)
    ensures var s := StatementStep(r, reply);
            && IsFaithful(w.history, s) && s.alive == r.alive && !s.place.TryLock? && !s.place.Finished?
  {
    hide FindPending, RowsOf, HasRoomFor, IsPlan;
  }

  lemma OthersStay(w: World, i: nat, r: Runner)
    requires Invariant(w) && i < |w.runners| && IsFaithful(w.history, r)
    ensures var runners := w.runners[i := r]; forall j :: 0 <= j < |runners| ==> IsFaithful(w.history, runners[j])
  {
    hide IsFaithful;
  }

  /** A step that leaves the database and the lock alone. */
  lemma LocalStepKeeps(w: World, i: nat, r: Runner)
    requires Invariant(w) && i < |w.runners| && IsFaithful(w.history, r)
    requires r.alive == w.runners[i].alive && (InCriticalSection(r) ==> InCriticalSection(w.runners[i]))
    requires r.place.TryLock? ==> w.runners[i].place.TryLock?
    ensures Invariant(SetRunner(w, i, r))
  {
    hide IsFaithful, RowsOf;
    OthersStay(w, i, r);
  }

  lemma TryLockKeeps(w: World, i: nat, reply: Reply)
    requires Invariant(w) && Enabled(w, Step(i, reply)) && w.runners[i].place.TryLock?
    ensures Invariant(TryLockStep(w, i, reply))
  {
    hide FindPending, RowsOf;
    var r := w.runners[i];
    if reply.Failed? {
      LocalStepKeeps(w, i, GiveUp(r, Finished));
    } else if w.lock.None? {
      OthersStay(w, i, TryLockStep(w, i, reply).runners[i]);
    }
  }

  lemma InitCommitKeeps(w: World, i: nat, reply: Reply)
    requires Invariant(w) && Enabled(w, Step(i, reply)) && w.runners[i].place.InitCommit?
    ensures Invariant(InitCommitStep(w, i, reply))
  {
    hide FindPending, RowsOf;
    LocalStepKeeps(w, i, InitCommitStep(w, i, reply).runners[i]);
  }

  lemma NothingContributedYet(history: seq<Row>, pending: seq<Migration>)
    ensures history + RowsOf(pending[..0]) == history
  {
  }

  lemma ReadHistoryKeeps(w: World, i: nat, reply: Reply)
    requires Invariant(w) && Enabled(w, Step(i, reply)) && w.runners[i].place.ReadHistory?
    ensures Invariant(ReadHistoryStep(w, i, reply))
  {
    hide FindPending, RowsOf, IsPlan;
    var r := ReadHistoryStep(w, i, reply).runners[i];
    NothingContributedYet(w.history, r.pending);
    NothingContributedYet(w.history, []);
    assert !reply.Failed? ==> w.runners[i].alive;
    LocalTransaction(w, i);
    LocalStepKeeps(w, i, r);
  }

  lemma LocalTransaction(w: World, i: nat)
    requires Invariant(w) && i < |w.runners|
    ensures IsFaithful(w.history, w.runners[i])
  {
  }

  lemma RowsOfNext(pending: seq<Migration>, n: nat)
    requires n < |pending|
    ensures RowsOf(pending[..n + 1]) == RowsOf(pending[..n]) + [pending[n].row]
  {
  }

  lemma RowsOfAppend(migrations: seq<Migration>, m: Migration)
    ensures RowsOf(migrations + [m]) == RowsOf(migrations) + [m.row]
  {
  }

  /** The committing runner's own part: its list grows by one in the history. */
  lemma CommitKeepsFaithful(w: World, i: nat, reply: Reply)
    requires Invariant(w) && Enabled(w, Step(i, reply)) && w.runners[i].place.ApplyCommit?
    ensures IsFaithful(CommitStep(w, i, reply).history, CommitStep(w, i, reply).runners[i])
  {
    hide FindPending, RowsOf, IsPlan, HasRoomFor, Consistent;
    var r := w.runners[i];
    RowsOfNext(r.pending, r.applied);
  }

  lemma CommitKeepsConsistent(w: World, m: Migration)
    requires Consistent(w) && HasRoomFor(w.history, m.row)
    ensures Consistent(w.(history := w.history + [m.row], effects := w.effects + [m]))
  {
    hide RowsOf;
    RowsOfAppend(w.effects, m);
  }

  lemma CommitKeeps(w: World, i: nat, reply: Reply)
    requires Invariant(w) && Enabled(w, Step(i, reply)) && w.runners[i].place.ApplyCommit?
    ensures Invariant(CommitStep(w, i, reply))
  {
    var r, after := w.runners[i], CommitStep(w, i, reply);
    CommitKeepsFaithful(w, i, reply);
    hide FindPending, RowsOf, IsPlan, HasRoomFor;
    if reply.Failed? {
      LocalStepKeeps(w, i, after.runners[i]);
    } else {
      CommitKeepsConsistent(w, r.pending[r.applied]);
      hide IsFaithful, Consistent;
      forall j | 0 <= j < |w.runners| ensures IsFaithful(after.history, after.runners[j]) {
        if j != i {
          FaithfulUnderGrowth(w.history, r.transaction.rows, w.runners[j]);
        }
      }
    }
  }

  lemma UnlockKeeps(w: World, i: nat, reply: Reply)
    requires Invariant(w) && Enabled(w, Step(i, reply)) && w.runners[i].place.Unlock?
    ensures Invariant(UnlockStep(w, i, reply))
  {
    hide FindPending, RowsOf, IsPlan;
    OthersStay(w, i, UnlockStep(w, i, reply).runners[i]);
  }

  lemma SessionEndKeeps(w: World, i: nat)
    requires Invariant(w) && Enabled(w, SessionEnds(i))
    ensures Invariant(Next(w, SessionEnds(i)))
  {
    hide FindPending, RowsOf, IsPlan;
    OthersStay(w, i, Next(w, SessionEnds(i)).runners[i]);
  }

  /** Every event keeps the invariant, whoever takes it and whatever the reply. */
  lemma NextKeepsInvariant(w: World, e: Event)
    requires Invariant(w) && Enabled(w, e)
    ensures Invariant(Next(w, e))
  {
    hide TryLockStep, InitCommitStep, ReadHistoryStep, CommitStep, UnlockStep, StatementStep, IsFaithful, Consistent,
      Exclusive;
    match e
    case SessionEnds(i) => SessionEndKeeps(w, i);
    case Step(i, reply) =>
      var r := w.runners[i];
      if r.place.TryLock? {
        TryLockKeeps(w, i, reply);
      } else if r.place.InitCommit? {
        InitCommitKeeps(w, i, reply);
      } else if r.place.ReadHistory? {
        ReadHistoryKeeps(w, i, reply);
      } else if r.place.ApplyCommit? {
        CommitKeeps(w, i, reply);
      } else if r.place.Unlock? {
        UnlockKeeps(w, i, reply);
      } else {
        StatementKeepsFaithful(w, r, reply);
        LocalStepKeeps(w, i, StatementStep(r, reply));
      }
  }

  ghost predicate IsRun(w: World, events: seq<Event>)
    decreases |events|
  {
    events == [] || (Enabled(w, events[0]) && IsRun(Next(w, events[0]), events[1..]))
  }

  ghost function AfterRun(w: World, events: seq<Event>): World
    requires IsRun(w, events)
    decreases |events|
  {
    if events == [] then w else AfterRun(Next(w, events[0]), events[1..])
  }

  lemma {:induction false} RunKeepsInvariant(w: World, events: seq<Event>)
    requires Invariant(w) && IsRun(w, events)
    ensures Invariant(AfterRun(w, events))
    decreases |events|
  {
    hide Invariant, Next, Enabled;
    if events != [] {
      NextKeepsInvariant(w, events[0]);
      RunKeepsInvariant(Next(w, events[0]), events[1..]);
    }
  }

  /** A database with a consistent history and runners that have not started. */
  ghost predicate IsStart(w: World) {
    && Consistent(w) && w.lock.None?
    && forall i :: 0 <= i < |w.runners| ==> IsPlan(w.runners[i].files) && w.runners[i] == NewRunner(w.runners[i].files)
  }

  /**
   However many runners interleave, and whatever fails: the history rows and committed effects stay in
   one-to-one correspondence with no version or file name twice, and what a runner has committed is a
   prefix of its pending list, in the history right behind the rows it had read.
   */
  lemma EveryRunIsConsistent(w: World, events: seq<Event>)
    requires IsStart(w) && IsRun(w, events)
    ensures var after := AfterRun(w, events);
            && Consistent(after)
            && forall i :: 0 <= i < |after.runners| && after.runners[i].hasRead ==>
                 Contributed(after.history, after.runners[i])
  {
    hide AfterRun, IsRun;
    RunKeepsInvariant(w, events);
  }

  /** No two runners are at work at once. */
  lemma MutualExclusion(w: World, i: nat, j: nat)
    requires Invariant(w) && i < |w.runners| && j < |w.runners|
    requires InCriticalSection(w.runners[i]) && InCriticalSection(w.runners[j])
    ensures i == j
  {
    hide IsFaithful, Consistent;
    assert w.lock == Some(i) && w.lock == Some(j);
  }

  // ---------------------------------------------------------------- what a run achieves

  lemma {:induction false} NotAppliedIsOrdered(files: seq<Migration>, history: seq<Row>)
    requires IsPlan(files)
    ensures var pending := NotApplied(files, history);
            && IsPlan(pending)
            && (forall m :: m in pending <==> m in files && !IsApplied(history, m.row.version))
  {
    hide IsApplied;
    if files != [] {
      NotAppliedIsOrdered(files[1..], history);
      var rest := NotApplied(files[1..], history);
      assert forall m :: m in files <==> m == files[0] || m in files[1..];
      forall i | 0 <= i < |rest| ensures files[0].row.version < rest[i].row.version {
        assert rest[i] in files[1..];
        var k :| 0 <= k < |files[1..]| && files[1..][k] == rest[i];
        assert files[k + 1] == rest[i];
      }
    }
  }

  lemma {:induction false} LocalFileFinds(files: seq<Migration>, m: Migration)
    requires IsPlan(files) && m in files
    ensures LocalFile(files, m.row.version) == Some(m)
  {
    var last := files[|files| - 1];
    if m != last {
      var k :| 0 <= k < |files| && files[k] == m;
      assert files[..|files| - 1][k] == m;
      LocalFileFinds(files[..|files| - 1], m);
    }
  }

  /** The row of one of the files, in all its parts. */
  ghost predicate IsFileRow(files: seq<Migration>, row: Row) {
    exists m :: m in files && m.row == row
  }

  /** What there is to say of a row that is no file's: its version is unknown, or the name or the content changed. */
  ghost predicate Describes(complaint: Comparison, files: seq<Migration>, row: Row) {
    match complaint
    case PendingMigrations(_) => false
    case MissingLocal(version) => version == row.version && forall m :: m in files ==> m.row.version != version
    case FilenameMismatch(version) =>
      version == row.version && exists m :: m in files && m.row.version == version && m.row.filename != row.filename
    case ChecksumMismatch(version) =>
      && version == row.version
      && exists m ::
           m in files && m.row.version == version && m.row.filename == row.filename && m.row.checksum != row.checksum
  }

  lemma {:induction false} LocalFileIsInPlan(files: seq<Migration>, version: nat)
    ensures var local := LocalFile(files, version);
            && (local.Some? ==> local.value in files && local.value.row.version == version)
            && (local.None? ==> forall m :: m in files ==> m.row.version != version)
  {
    if files != [] {
      LocalFileIsInPlan(files[..|files| - 1], version);
      assert files == files[..|files| - 1] + [files[|files| - 1]];
    }
  }

  lemma OneFilePerVersion(files: seq<Migration>, m: Migration, n: Migration)
    requires IsPlan(files) && m in files && n in files
    ensures m.row.version == n.row.version ==> m == n
  {
    var i :| 0 <= i < |files| && files[i] == m;
    var j :| 0 <= j < |files| && files[j] == n;
  }

  lemma MismatchIsExact(files: seq<Migration>, row: Row)
    requires IsPlan(files)
    ensures Mismatch(files, row).None? <==> IsFileRow(files, row)
    ensures Mismatch(files, row).Some? ==> Describes(Mismatch(files, row).value, files, row)
  {
    hide LocalFile, IsPlan;
    LocalFileIsInPlan(files, row.version);
    var local := LocalFile(files, row.version);
    if m :| m in files && m.row == row {
      OneFilePerVersion(files, m, local.value);
    }
  }

  lemma {:induction false} FirstMismatchIsExact(files: seq<Migration>, history: seq<Row>)
    requires IsPlan(files)
    ensures FirstMismatch(files, history).None? <==> forall row :: row in history ==> IsFileRow(files, row)
    ensures FirstMismatch(files, history).Some? ==>
              exists i :: && 0 <= i < |history| && (forall k :: 0 <= k < i ==> IsFileRow(files, history[k]))
                          && !IsFileRow(files, history[i])
                          && Describes(FirstMismatch(files, history).value, files, history[i])
  {
    hide Mismatch, IsPlan, IsFileRow, Describes;
    if history != [] {
      MismatchIsExact(files, history[0]);
      FirstMismatchIsExact(files, history[1..]);
      assert history == [history[0]] + history[1..];
      if Mismatch(files, history[0]).None? && FirstMismatch(files, history).Some? {
        var i :| && 0 <= i < |history[1..]| && (forall k :: 0 <= k < i ==> IsFileRow(files, history[1..][k]))
                 && !IsFileRow(files, history[1..][i])
                 && Describes(FirstMismatch(files, history[1..]).value, files, history[1..][i]);
        assert history[i + 1] == history[1..][i];
        assert forall k :: 1 <= k < i + 1 ==> history[k] == history[1..][k - 1];
      }
    }
  }

  /**
   The comparison of a plan with a history passes if and only if every history row is, in version, name and
   checksum, the row of a file; it then delivers exactly the files whose version is not in the history, in
   order. Otherwise it speaks of the first row that is no file's row, and says what is wrong with it.
   */
  lemma ComparisonIsExact(files: seq<Migration>, history: seq<Row>)
    requires IsPlan(files)
    ensures var result := FindPending(files, history);
            && (result.PendingMigrations? <==> forall row :: row in history ==> IsFileRow(files, row))
            && (result.PendingMigrations? ==>
                  && IsPlan(result.pending)
                  && forall m :: m in result.pending <==>
                       m in files && forall row :: row in history ==> row.version != m.row.version)
            && (!result.PendingMigrations? ==>
                  exists i :: && 0 <= i < |history| && (forall k :: 0 <= k < i ==> IsFileRow(files, history[k]))
                              && !IsFileRow(files, history[i]) && Describes(result, files, history[i]))
  {
    hide FirstMismatch, NotApplied, IsPlan, IsFileRow, Describes;
    FirstMismatchIsExact(files, history);
    NotAppliedIsOrdered(files, history);
    forall m | m in files
      ensures IsApplied(history, m.row.version) <==> !forall row :: row in history ==> row.version != m.row.version
    {
    }
  }

  lemma {:induction false} MismatchesOfConcat(files: seq<Migration>, a: seq<Row>, b: seq<Row>)
    requires FirstMismatch(files, a).None? && FirstMismatch(files, b).None?
    ensures FirstMismatch(files, a + b).None?
  {
    if a == [] {
      assert a + b == b;
    } else {
      MismatchesOfConcat(files, a[1..], b);
      assert (a + b)[1..] == a[1..] + b;
    }
  }

  lemma {:induction false} OwnRowsMatch(files: seq<Migration>, migrations: seq<Migration>)
    requires IsPlan(files) && forall m :: m in migrations ==> m in files
    ensures FirstMismatch(files, RowsOf(migrations)).None?
  {
    if migrations != [] {
      assert migrations[0] in migrations;
      LocalFileFinds(files, migrations[0]);
      OwnRowsMatch(files, migrations[1..]);
      assert RowsOf(migrations)[1..] == RowsOf(migrations[1..]);
    }
  }

  /**
   After a run over all its pending migrations, the next run with the same files finds nothing to do
   and nothing to complain about.
   */
  lemma CompletedRunLeavesNothing(files: seq<Migration>, base: seq<Row>)
    requires IsPlan(files) && FindPending(files, base).PendingMigrations?
    ensures FindPending(files, base + RowsOf(FindPending(files, base).pending)) == PendingMigrations([])
  {
    var pending := FindPending(files, base).pending;
    var history := base + RowsOf(pending);
    NotAppliedIsOrdered(files, base);
    OwnRowsMatch(files, pending);
    MismatchesOfConcat(files, base, RowsOf(pending));
    hide FindPending, FirstMismatch, NotApplied, IsPlan;
    forall m | m in files ensures IsApplied(history, m.row.version) {
      if IsApplied(base, m.row.version) {
        var i :| 0 <= i < |base| && base[i].version == m.row.version;
        assert history[i].version == m.row.version;
      } else {
        var i :| 0 <= i < |pending| && pending[i] == m;
        assert history[|base| + i].version == m.row.version;
      }
    }
    NothingNotApplied(files, history);
    assert FindPending(files, history) == PendingMigrations([]) by { NothingPending(files, history); }
  }

  lemma NothingPending(files: seq<Migration>, history: seq<Row>)
    requires FirstMismatch(files, history).None? && NotApplied(files, history) == []
    ensures FindPending(files, history) == PendingMigrations([])
  {
  }

  lemma {:induction false} NothingNotApplied(files: seq<Migration>, history: seq<Row>)
    requires forall m :: m in files ==> IsApplied(history, m.row.version)
    ensures NotApplied(files, history) == []
  {
    hide IsApplied;
    if files != [] {
      assert files[0] in files;
      NothingNotApplied(files[1..], history);
    }
  }

  /**
   What one runner did, in every reachable state: with a mismatching history it committed nothing;
   otherwise its list is the version-ordered unapplied part of its files and it committed a prefix; a
   successful run committed the whole list, and then its files have nothing pending.
   */
  lemma RunnerAccount(w: World, i: nat)
    requires Invariant(w) && i < |w.runners| && w.runners[i].hasRead
    ensures var r := w.runners[i];
            var found := FindPending(r.files, r.base);
            && r.base + RowsOf(r.pending[..r.committed]) <= w.history
            && (!found.PendingMigrations? ==> r.failed && r.committed == 0)
            && (r.committed > 0 || !r.failed ==> forall row :: row in r.base ==> IsFileRow(r.files, row))
            && (found.PendingMigrations? ==> r.pending == found.pending && IsPlan(r.pending))
            && (r.place.Finished? && !r.failed ==>
                  && r.committed == |r.pending|
                  && found.PendingMigrations?
                  && FindPending(r.files, r.base + RowsOf(r.pending)) == PendingMigrations([]))
  {
    LocalTransaction(w, i);
    hide Invariant, RowsOf, FirstMismatch, NotApplied, IsFileRow;
    var r := w.runners[i];
    ComparisonIsExact(r.files, r.base);
    if FindPending(r.files, r.base).PendingMigrations? {
      NotAppliedIsOrdered(r.files, r.base);
      CompletedRunLeavesNothing(r.files, r.base);
    }
  }

  /** Effects change only when a runner that holds the lock commits the next migration of its list. */
  lemma OnlyCommitsChangeEffects(w: World, e: Event)
    requires Invariant(w) && Enabled(w, e)
    ensures var after := Next(w, e);
            after.effects != w.effects ==>
              var r := w.runners[e.runner];
              && e.Step? && r.place.ApplyCommit? && w.lock == Some(e.runner)
              && r.applied < |r.pending|
              && after.effects == w.effects + [r.pending[r.applied]]
  {
    LocalTransaction(w, e.runner);
    hide FindPending, RowsOf, IsPlan, HasRoomFor, Consistent;
  }
}
