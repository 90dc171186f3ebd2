/**
 The bounded loops of src/modules/retention/retention-repository.ts and the care of its database session.
 The answers of the database and the readings of the abort signal are parameters, by call number.
 */
module RetentionMaintenance {
  import opened Prelude

  const PARTITION_DROP_CALL_LIMIT := 32
  const DEFAULT_DELETE_BATCH_SIZE := 1_000
  const DEFAULT_DELETE_CALL_LIMIT := 10

  /** None: the query failed, or its answer does not have the expected shape. */
  datatype Host = Host(
    aborted: nat -> bool,
    created: nat -> Option<bool>,
    dropped: nat -> Option<bool>,
    deleted: nat -> Option<nat>)

  datatype Status = Completed | Skipped | Aborted

  datatype RunResult = RunResult(
    status: Status,
    partitionEnsureCalls: nat, partitionsCreated: nat,
    partitionDropCalls: nat, partitionsDropped: nat,
    defaultCleanupCalls: nat, defaultRowsDeleted: nat,
    partitionDropBudgetReached: bool, defaultDeleteBudgetReached: bool)

  function EmptyResult(status: Status): RunResult {
    RunResult(status, 0, 0, 0, 0, 0, 0, false, false)
  }

  function CountTrue(answers: nat -> Option<bool>, n: nat): nat {
    if n == 0 then 0 else CountTrue(answers, n - 1) + if answers(n - 1) == Some(true) then 1 else 0
  }

  function SumRows(answers: nat -> Option<nat>, n: nat): nat {
    if n == 0 then 0 else SumRows(answers, n - 1) + match answers(n - 1) { case Some(rows) => rows case None => 0 }
  }

  // ---------------------------------------------------------------- what a run does

  /** Dropping ends with the first answer that nothing was dropped, or with the budget. */
  predicate DropsAreDone(host: Host, calls: nat) {
    calls == PARTITION_DROP_CALL_LIMIT || (calls > 0 && host.dropped(calls - 1) == Some(false))
  }

  /** Deleting ends with the first batch that is not full, or with the budget. */
  predicate DeletesAreDone(host: Host, calls: nat) {
    calls == DEFAULT_DELETE_CALL_LIMIT || (calls > 0 && host.deleted(calls - 1) != Some(DEFAULT_DELETE_BATCH_SIZE))
  }

  ghost predicate EnsurePhase(host: Host, partitions: nat, r: RunResult) {
    && r.partitionEnsureCalls <= partitions
    && (forall k: nat :: k < r.partitionEnsureCalls ==> host.created(k).Some?)
    && r.partitionsCreated == CountTrue(host.created, r.partitionEnsureCalls)
  }

  ghost predicate DropPhase(host: Host, partitions: nat, r: RunResult) {
    && r.partitionDropCalls <= PARTITION_DROP_CALL_LIMIT
    && (r.partitionDropCalls > 0 ==> r.partitionEnsureCalls == partitions)
    && (forall k: nat :: k < r.partitionDropCalls ==> host.dropped(k).Some?)
    && (forall k: nat :: k + 1 < r.partitionDropCalls ==> host.dropped(k) == Some(true))
    && r.partitionsDropped == CountTrue(host.dropped, r.partitionDropCalls)
    && (r.partitionDropBudgetReached <==> r.partitionsDropped == PARTITION_DROP_CALL_LIMIT)
  }

  ghost predicate DeletePhase(host: Host, r: RunResult) {
    && r.defaultCleanupCalls <= DEFAULT_DELETE_CALL_LIMIT
    && (r.defaultCleanupCalls > 0 ==> DropsAreDone(host, r.partitionDropCalls))
    && (forall k: nat :: k < r.defaultCleanupCalls ==>
         host.deleted(k).Some? && host.deleted(k).value <= DEFAULT_DELETE_BATCH_SIZE)
    && (forall k: nat :: k + 1 < r.defaultCleanupCalls ==> host.deleted(k) == Some(DEFAULT_DELETE_BATCH_SIZE))
    && r.defaultRowsDeleted == SumRows(host.deleted, r.defaultCleanupCalls)
    && (r.defaultDeleteBudgetReached <==> r.defaultRowsDeleted == DEFAULT_DELETE_CALL_LIMIT * DEFAULT_DELETE_BATCH_SIZE)
  }

  function Calls(r: RunResult): nat {
    r.partitionEnsureCalls + r.partitionDropCalls + r.defaultCleanupCalls
  }

  /**
   The result of a maintenance run, said without its loops: which calls were made, that the signal was
   read before each, and that the run ended because all phases were done or the signal was aborted.
   */
  ghost predicate IsMaintenance(host: Host, partitions: nat, r: RunResult) {
    && EnsurePhase(host, partitions, r) && DropPhase(host, partitions, r) && DeletePhase(host, r)
    && (forall k: nat :: k < Calls(r) ==> !host.aborted(k))
    && (r.status.Completed? <==> DeletesAreDone(host, r.defaultCleanupCalls))
    && (!r.status.Completed? ==> r.status.Aborted? && host.aborted(Calls(r)))
  }

  /** This fixes the result: for given answers there is at most one. */
  lemma MaintenanceIsDetermined(host: Host, partitions: nat, a: RunResult, b: RunResult)
    requires IsMaintenance(host, partitions, a) && IsMaintenance(host, partitions, b)
    ensures a == b
  {
    hide CountTrue, SumRows;
    NotAhead(host, partitions, a, b);
    NotAhead(host, partitions, b, a);
  }

  lemma NotAhead(host: Host, partitions: nat, a: RunResult, b: RunResult)
    requires IsMaintenance(host, partitions, a) && IsMaintenance(host, partitions, b)
    ensures a.partitionEnsureCalls <= b.partitionEnsureCalls
    ensures a.partitionEnsureCalls == b.partitionEnsureCalls ==> a.partitionDropCalls <= b.partitionDropCalls
    ensures a.partitionEnsureCalls == b.partitionEnsureCalls && a.partitionDropCalls == b.partitionDropCalls
            ==> a.defaultCleanupCalls <= b.defaultCleanupCalls
  {
    hide CountTrue, SumRows;
  }

  lemma {:induction false} FullBatches(answers: nat -> Option<nat>, n: nat)
    requires forall k: nat :: k < n ==> answers(k) == Some(DEFAULT_DELETE_BATCH_SIZE)
    ensures SumRows(answers, n) == n * DEFAULT_DELETE_BATCH_SIZE
  {
    if n > 0 {
      FullBatches(answers, n - 1);
    }
  }

  lemma {:induction false} AllTrue(answers: nat -> Option<bool>, n: nat)
    requires forall k: nat :: k < n ==> answers(k) == Some(true)
    ensures CountTrue(answers, n) == n
  {
    if n > 0 {
      AllTrue(answers, n - 1);
    }
  }

  function Yes(answers: nat -> Option<bool>, n: nat): set<nat> {
    set k: nat | k < n && answers(k) == Some(true)
  }

  lemma {:induction false} CountTrueIsCount(answers: nat -> Option<bool>, n: nat)
    ensures CountTrue(answers, n) == |Yes(answers, n)|
  {
    if n > 0 {
      CountTrueIsCount(answers, n - 1);
      assert Yes(answers, n) == Yes(answers, n - 1) + if answers(n - 1) == Some(true) then {n - 1} else {};
    }
  }

  /**
   What a completed run says: every partition was ensured; at most 32 partitions were dropped, one call after the
   other until the first refusal; at most 10 batches of at most 1000 rows were deleted, until the first that was
   not full. The counts are those of the answers, and a flag says that the last call of its budget was still full.
   */
  lemma CompletedRunSays(host: Host, partitions: nat, r: RunResult)
    requires IsMaintenance(host, partitions, r) && r.status.Completed?
    ensures r.partitionEnsureCalls == partitions && r.partitionsCreated == |Yes(host.created, partitions)|
    ensures var n := r.partitionDropCalls;
            && 1 <= n <= 32 && r.partitionsDropped == |Yes(host.dropped, n)|
            && (forall k: nat :: k < n - 1 ==> host.dropped(k) == Some(true))
            && (n < 32 ==> host.dropped(n - 1) == Some(false))
            && (r.partitionDropBudgetReached <==> n == 32 && host.dropped(31) == Some(true))
    ensures var n := r.defaultCleanupCalls;
            && 1 <= n <= 10 && host.deleted(n - 1).Some?
            && r.defaultRowsDeleted == (n - 1) * 1000 + host.deleted(n - 1).value <= 10_000
            && (forall k: nat :: k < n - 1 ==> host.deleted(k) == Some(1000))
            && (n < 10 ==> host.deleted(n - 1).value < 1000)
            && (r.defaultDeleteBudgetReached <==> n == 10 && host.deleted(9) == Some(1000))
  {
    CountTrueIsCount(host.created, r.partitionEnsureCalls);
    CountTrueIsCount(host.dropped, r.partitionDropCalls);
    hide CountTrue, SumRows, Yes;
    AllTrue(host.dropped, r.partitionDropCalls - 1);
    OneMoreAnswer(host.dropped, r.partitionDropCalls - 1);
    FullBatches(host.deleted, r.defaultCleanupCalls - 1);
    OneMoreBatch(host.deleted, r.defaultCleanupCalls - 1);
  }

  lemma OneMoreAnswer(answers: nat -> Option<bool>, n: nat)
    ensures CountTrue(answers, n + 1) == CountTrue(answers, n) + if answers(n) == Some(true) then 1 else 0
  {
  }

  // ---------------------------------------------------------------- executeMaintenance

  predicate IsBadCount(deleted: Option<nat>) {
    deleted.None? || deleted.value > DEFAULT_DELETE_BATCH_SIZE
  }

  /** The next answer that a run with these calls behind it asks for is one it throws on. */
  predicate NextAnswerIsBad(host: Host, partitions: nat, r: RunResult) {
    if r.partitionEnsureCalls < partitions then host.created(r.partitionEnsureCalls).None?
    else if !DropsAreDone(host, r.partitionDropCalls) then host.dropped(r.partitionDropCalls).None?
    else !DeletesAreDone(host, r.defaultCleanupCalls) && IsBadCount(host.deleted(r.defaultCleanupCalls))
  }

  /** The result as it stood when the run threw: all answers so far were good and the next one is bad. */
  ghost predicate IsFailure(host: Host, partitions: nat, r: RunResult) {
    && EnsurePhase(host, partitions, r) && DropPhase(host, partitions, r) && DeletePhase(host, r)
    && (forall k: nat :: k <= Calls(r) ==> !host.aborted(k))
    && NextAnswerIsBad(host, partitions, r)
  }

  ghost predicate Fails(host: Host, partitions: nat) {
    exists r :: IsFailure(host, partitions, r)
  }

  /** For given answers a run either throws or has a result, not both. */
  lemma FailureHasNoResult(host: Host, partitions: nat, failed: RunResult, r: RunResult)
    requires IsFailure(host, partitions, failed)
    ensures !IsMaintenance(host, partitions, r)
  {
    hide CountTrue, SumRows;
  }

  datatype Attempt = Done(result: RunResult) | Thrown(at: RunResult)

  lemma OneMoreBatch(answers: nat -> Option<nat>, n: nat)
    ensures answers(n).Some? ==> SumRows(answers, n + 1) == SumRows(answers, n) + answers(n).value
  {
  }

  method EnsurePartitions(host: Host, partitions: nat) returns (r: Attempt)
    ensures var result := if r.Done? then r.result else r.at;
            && EnsurePhase(host, partitions, result)
            && result == EmptyResult(result.status).(partitionEnsureCalls := result.partitionEnsureCalls,
                 partitionsCreated := result.partitionsCreated)
            && (forall k: nat :: k < result.partitionEnsureCalls ==> !host.aborted(k))
    ensures r.Thrown? ==>
              && r.at.status.Completed? && r.at.partitionEnsureCalls < partitions
              && host.created(r.at.partitionEnsureCalls).None? && !host.aborted(r.at.partitionEnsureCalls)
    ensures r.Done? ==>
              if r.result.status.Completed? then r.result.partitionEnsureCalls == partitions
              else r.result.status.Aborted? && host.aborted(r.result.partitionEnsureCalls)
  {
    var result := EmptyResult(Completed);
    for i := 0 to partitions
      invariant result ==
        EmptyResult(Completed).(partitionEnsureCalls := i, partitionsCreated := CountTrue(host.created, i))
      invariant forall k: nat :: k < i ==> host.created(k).Some? && !host.aborted(k)
    {
      if host.aborted(i) {
        return Done(result.(status := Aborted));
      }
      var created := host.created(i);
      if created.None? {
        return Thrown(result);
      }
      result := result.(partitionEnsureCalls := result.partitionEnsureCalls + 1);
      if created.value {
        result := result.(partitionsCreated := result.partitionsCreated + 1);
      }
    }
    return Done(result);
  }

  method DropPartitions(host: Host, partitions: nat, before: RunResult) returns (r: Attempt)
    requires before.partitionEnsureCalls == partitions
    requires before ==
      EmptyResult(Completed).(partitionEnsureCalls := partitions, partitionsCreated := before.partitionsCreated)
    ensures var result := if r.Done? then r.result else r.at;
            && DropPhase(host, partitions, result)
            && result == before.(status := result.status, partitionDropCalls := result.partitionDropCalls,
                                 partitionsDropped := result.partitionsDropped,
                                 partitionDropBudgetReached := result.partitionDropBudgetReached)
            && (forall k: nat :: partitions <= k < partitions + result.partitionDropCalls ==> !host.aborted(k))
    ensures r.Thrown? ==>
              && r.at.status.Completed? && !DropsAreDone(host, r.at.partitionDropCalls)
              && host.dropped(r.at.partitionDropCalls).None? && !host.aborted(partitions + r.at.partitionDropCalls)
    ensures r.Done? ==>
              if r.result.status.Completed? then DropsAreDone(host, r.result.partitionDropCalls)
              else r.result.status.Aborted? && host.aborted(partitions + r.result.partitionDropCalls)
  {
    var result := before;
    for call := 0 to PARTITION_DROP_CALL_LIMIT
      invariant result == before.(partitionDropCalls := call, partitionsDropped := call,
                                  partitionDropBudgetReached := call == PARTITION_DROP_CALL_LIMIT)
      invariant forall k: nat :: k < call ==> host.dropped(k) == Some(true)
      invariant forall k: nat :: partitions <= k < partitions + call ==> !host.aborted(k)
    {
      AllTrue(host.dropped, call);
      if host.aborted(partitions + call) {
        return Done(result.(status := Aborted));
      }
      var dropped := host.dropped(call);
      if dropped.None? {
        return Thrown(result);
      }
      result := result.(partitionDropCalls := result.partitionDropCalls + 1);
      if !dropped.value {
        return Done(result);
      }
      result := result.(partitionsDropped := result.partitionsDropped + 1);
      if call + 1 == PARTITION_DROP_CALL_LIMIT {
        result := result.(partitionDropBudgetReached := true);
      }
    }
    AllTrue(host.dropped, PARTITION_DROP_CALL_LIMIT);
    return Done(result);
  }

  method DeleteDefaultRows(host: Host, before: RunResult) returns (r: Attempt)
    requires before.status.Completed? && DropsAreDone(host, before.partitionDropCalls)
    requires before.defaultCleanupCalls == before.defaultRowsDeleted == 0 && !before.defaultDeleteBudgetReached
    ensures var result := if r.Done? then r.result else r.at;
            && DeletePhase(host, result)
            && result == before.(status := result.status, defaultCleanupCalls := result.defaultCleanupCalls,
                                 defaultRowsDeleted := result.defaultRowsDeleted,
                                 defaultDeleteBudgetReached := result.defaultDeleteBudgetReached)
            && (forall k: nat :: Calls(before) <= k < Calls(result) ==> !host.aborted(k))
    ensures r.Thrown? ==>
              && !DeletesAreDone(host, r.at.defaultCleanupCalls)
              && IsBadCount(host.deleted(r.at.defaultCleanupCalls)) && !host.aborted(Calls(r.at))
    ensures r.Done? ==>
              && (r.result.status.Completed? <==> DeletesAreDone(host, r.result.defaultCleanupCalls))
              && (!r.result.status.Completed? ==> r.result.status.Aborted? && host.aborted(Calls(r.result)))
  {
    hide SumRows, CountTrue, DropsAreDone, EmptyResult;
    var result := before;
    for call := 0 to DEFAULT_DELETE_CALL_LIMIT
      invariant result == before.(defaultCleanupCalls := call, defaultRowsDeleted := call * DEFAULT_DELETE_BATCH_SIZE,
                                  defaultDeleteBudgetReached := call == DEFAULT_DELETE_CALL_LIMIT)
      invariant forall k: nat :: k < call ==> host.deleted(k) == Some(DEFAULT_DELETE_BATCH_SIZE)
      invariant forall k: nat :: Calls(before) <= k < Calls(before) + call ==> !host.aborted(k)
    {
      FullBatches(host.deleted, call);
      OneMoreBatch(host.deleted, call);
      if host.aborted(Calls(before) + call) {
        return Done(result.(status := Aborted));
      }
      var deleted := host.deleted(call);
      if deleted.None? {
        return Thrown(result);
      }
      if deleted.value > DEFAULT_DELETE_BATCH_SIZE {
        return Thrown(result);
      }
      result := result.(defaultCleanupCalls := result.defaultCleanupCalls + 1,
        defaultRowsDeleted := result.defaultRowsDeleted + deleted.value);
      if deleted.value < DEFAULT_DELETE_BATCH_SIZE {
        return Done(result);
      }
      if call + 1 == DEFAULT_DELETE_CALL_LIMIT {
        result := result.(defaultDeleteBudgetReached := true);
      }
    }
    FullBatches(host.deleted, DEFAULT_DELETE_CALL_LIMIT);
    return Done(result);
  }

  /** It throws exactly when the first answer asked for that is not good comes before the run ends. */
  method ExecuteMaintenance(host: Host, partitions: nat) returns (r: Attempt)
    ensures r.Done? ==> IsMaintenance(host, partitions, r.result) && !Fails(host, partitions)
    ensures r.Thrown? ==> IsFailure(host, partitions, r.at) && Fails(host, partitions)
  {
    hide CountTrue, SumRows, Fails;
    NothingAdded(host);
    r := EnsurePartitions(host, partitions);
    if r.Done? && r.result.status.Completed? {
      r := DropPartitions(host, partitions, r.result);
      if r.Done? && r.result.status.Completed? {
        r := DeleteDefaultRows(host, r.result);
      }
    }
    AttemptIsExclusive(host, partitions, r);
  }

  lemma AttemptIsExclusive(host: Host, partitions: nat, r: Attempt)
    requires if r.Done? then IsMaintenance(host, partitions, r.result) else IsFailure(host, partitions, r.at)
    ensures r.Thrown? <==> Fails(host, partitions)
  {
    hide IsMaintenance, IsFailure;
    forall failed | IsFailure(host, partitions, failed) ensures !r.Done? {
      if r.Done? {
        FailureHasNoResult(host, partitions, failed, r.result);
      }
    }
  }

  lemma NothingAdded(host: Host)
    ensures CountTrue(host.dropped, 0) == 0 && SumRows(host.deleted, 0) == 0
  {
  }

  // ---------------------------------------------------------------- the session

  /** What a locking or unlocking query did on the server, and what answer could be read. */
  datatype LockQuery = LockQuery(done: bool, answer: Option<bool>)

  /** The database does not lie about a lock, but an answer can get lost. */
  predicate IsTruthful(q: LockQuery) {
    q.answer.Some? ==> q.answer.value == q.done
  }

  datatype Session = NotConnected | BackInPool | Destroyed

  datatype ErrorSource = Request | Connect | Lock | Maintenance | Unlock | Release

  datatype Outcome = Returned(result: RunResult) | Threw(error: ErrorSource)

  /**
   The public `run`. A session goes back to the pool only without the maintenance lock; maintenance runs
   only under it; of several errors the first is thrown; a result is returned exactly when nothing failed.
   */
  method Run(valid: bool, abortedBefore: bool, connects: bool, lock: LockQuery, unlock: LockQuery, releases: bool,
             host: Host, partitions: nat)
    returns (outcome: Outcome, session: Session, holdsLock: bool, maintained: bool)
    requires IsTruthful(lock) && IsTruthful(unlock)
    ensures session.BackInPool? ==> !holdsLock
    ensures session.Destroyed? <==>
              valid && !abortedBefore && connects &&
                (lock.answer.None? || (lock.answer.value && unlock.answer != Some(true)))
    ensures session.NotConnected? <==> !valid || abortedBefore || !connects
    ensures maintained <==> !session.NotConnected? && lock.answer == Some(true)
    ensures maintained ==> lock.done
    ensures session.NotConnected? ==>
              outcome ==
                if !valid then Threw(Request)
                else if abortedBefore then Returned(EmptyResult(Aborted)) else Threw(Connect)
    ensures !session.NotConnected? && !maintained ==>
              outcome ==
                if lock.answer.None? then Threw(Lock)
                else if !releases then Threw(Release) else Returned(EmptyResult(Skipped))
    ensures maintained && Fails(host, partitions) ==> outcome == Threw(Maintenance)
    ensures maintained && !Fails(host, partitions) ==>
              if unlock.answer != Some(true) then outcome == Threw(Unlock)
              else if !releases then outcome == Threw(Release)
              else outcome.Returned? && IsMaintenance(host, partitions, outcome.result)
  {
    hide Fails, IsMaintenance;
    holdsLock, maintained, session := false, false, NotConnected;
    if !valid {
      return Threw(Request), session, holdsLock, maintained;
    }
    if abortedBefore {
      return Returned(EmptyResult(Aborted)), session, holdsLock, maintained;
    }
    if !connects {
      return Threw(Connect), session, holdsLock, maintained;
    }
    var primaryError: Option<ErrorSource>, result: Option<RunResult> := None, None;
    var lockAcquired, destroyClient := false, false;
    holdsLock := lock.done;
    if lock.answer.None? {
      primaryError, destroyClient := Some(Lock), true;
    } else {
      lockAcquired := lock.answer.value;
      if !lockAcquired {
        result := Some(EmptyResult(Skipped));
      } else {
        maintained := true;
        var attempt := ExecuteMaintenance(host, partitions);
        if attempt.Done? {
          result := Some(attempt.result);
        } else {
          primaryError := Some(Maintenance);
        }
      }
    }
    if lockAcquired {
      holdsLock := holdsLock && !unlock.done;
      if unlock.answer != Some(true) {
        destroyClient := true;
        primaryError := if primaryError.None? then Some(Unlock) else primaryError;
      }
    }
    session := if destroyClient then Destroyed else BackInPool;
    if !releases {
      primaryError := if primaryError.None? then Some(Release) else primaryError;
    }
    outcome := if primaryError.Some? then Threw(primaryError.value) else Returned(result.value);
  }
}
