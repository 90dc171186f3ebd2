/**
 tools/loadgen/workload.ts and tools/loadgen/ingestion.ts: workers that share one batch index send the
 batches of a workload and count what came of them. A worker's code between two awaits is one step.
 */
module IngestionLoad {
  import opened Prelude

  datatype Config = Config(totalRows: nat, batchSize: nat, concurrency: nat)

  predicate IsConfig(c: Config) {
    c.batchSize >= 1 && c.concurrency >= 1
  }

  /** A batch, its rows given by their ordinals, from which each log is generated. */
  datatype Batch = Batch(batchIndex: nat, firstOrdinal: nat, ordinals: seq<nat>)

  // ---------------------------------------------------------------- tiling

  function BatchCount(c: Config): nat
    requires IsConfig(c)
  {
    (c.totalRows + c.batchSize - 1) / c.batchSize
  }

  /** createWorkloadBatch; None where it throws. */
  function CreateWorkloadBatch(c: Config, batchIndex: nat): Option<Batch>
  {
    var firstOrdinal := batchIndex * c.batchSize;
    var left := c.totalRows - firstOrdinal;
    var count := if c.batchSize < left then c.batchSize else left;
    if count <= 0 then None
    else Some(Batch(batchIndex, firstOrdinal, seq(count, k requires 0 <= k < count => firstOrdinal + k)))
  }

  function Ordinals(batches: seq<Batch>): seq<nat> {
    if batches == [] then [] else Ordinals(batches[..|batches| - 1]) + batches[|batches| - 1].ordinals
  }

  lemma OrdinalsAppend(batches: seq<Batch>, last: Batch)
    ensures Ordinals(batches + [last]) == Ordinals(batches) + last.ordinals
  {
    assert (batches + [last])[..|batches|] == batches;
  }

  function FirstBatches(c: Config, n: nat): seq<Batch>
    requires IsConfig(c) && n <= BatchCount(c)
  {
    if n == 0 then [] else
    CreatedIffCounted(c, n - 1);
    FirstBatches(c, n - 1) + [CreateWorkloadBatch(c, n - 1).value]
  }

  lemma Ceiling(total: nat, size: nat, k: nat)
    requires size >= 1
    ensures k < (total + size - 1) / size <==> k * size < total
  {
    var q := (total + size - 1) / size;
    assert total + size - 1 == q * size + (total + size - 1) % size;
    if k < q {
      MultiplyOrder(k + 1, q, size);
    } else {
      MultiplyOrder(q, k, size);
    }
  }

  lemma MultiplyOrder(a: nat, b: nat, size: nat)
    requires a <= b
    ensures a * size <= b * size
  {
    assert (b - a) * size >= 0;
  }

  /** A batch index is refused exactly when it is outside the configured row total. */
  lemma CreatedIffCounted(c: Config, k: nat)
    requires IsConfig(c)
    ensures CreateWorkloadBatch(c, k).Some? <==> k < BatchCount(c)
  {
    Ceiling(c.totalRows, c.batchSize, k);
  }

  function Covered(c: Config, n: nat): nat {
    if n * c.batchSize < c.totalRows then n * c.batchSize else c.totalRows
  }

  /** The ordinals of the first `n` rows. */
  function FirstRows(n: nat): seq<nat> {
    seq(n, k requires 0 <= k < n => k)
  }

  lemma FirstRowsAppend(n: nat, more: seq<nat>)
    requires forall j :: 0 <= j < |more| ==> more[j] == n + j
    ensures FirstRows(n) + more == FirstRows(n + |more|)
  {
  }

  lemma NoRows(c: Config)
    ensures Ordinals([]) == FirstRows(Covered(c, 0))
  {
  }

  /** All the batches hold all the rows. */
  lemma AllBatchesCoverAllRows(c: Config)
    requires IsConfig(c)
    ensures Covered(c, BatchCount(c)) == c.totalRows
  {
    Ceiling(c.totalRows, c.batchSize, BatchCount(c));
  }

  /** The first batches hold the rows from the first on, each exactly once and in order. */
  lemma {:induction false} FirstBatchesTile(c: Config, n: nat)
    requires IsConfig(c) && n <= BatchCount(c)
    ensures |FirstBatches(c, n)| == n
    ensures Ordinals(FirstBatches(c, n)) == FirstRows(Covered(c, n))
  {
    hide BatchCount, CreateWorkloadBatch, FirstRows, Ordinals;
    if n == 0 {
      NoRows(c);
    } else {
      hide Covered;
      CreatedIffCounted(c, n - 1);
      FirstBatchesTile(c, n - 1);
      var batch := CreateWorkloadBatch(c, n - 1).value;
      OrdinalsAppend(FirstBatches(c, n - 1), batch);
      CoveredStep(c, n - 1);
      FirstRowsAppend(Covered(c, n - 1), batch.ordinals);
    }
  }

  lemma CoveredStep(c: Config, k: nat)
    requires IsConfig(c) && CreateWorkloadBatch(c, k).Some?
    ensures Covered(c, k + 1) == Covered(c, k) + |CreateWorkloadBatch(c, k).value.ordinals|
    ensures forall j :: 0 <= j < |CreateWorkloadBatch(c, k).value.ordinals| ==>
      CreateWorkloadBatch(c, k).value.ordinals[j] == Covered(c, k) + j
  {
    assert (k + 1) * c.batchSize == k * c.batchSize + c.batchSize;
  }

  // ---------------------------------------------------------------- what a response is taken for

  /** The parts of a JSON body the check looks at; None where a part has the wrong shape. */
  datatype Body = OtherBody | Record(accepted: Option<int>, rejected: Option<seq<int>>)

  datatype Outcome =
    | Success(accepted: nat, rejected: seq<nat>)
    | Http(status: int) | Timeout | Transport | InvalidResponse(status: int)

  predicate NonNegative(s: seq<int>) {
    forall i :: 0 <= i < |s| ==> s[i] >= 0
  }

  function AsIndexes(s: seq<int>): seq<nat>
    requires NonNegative(s)
  {
    seq(|s|, i requires 0 <= i < |s| => s[i])
  }

  function SetOf(s: seq<nat>): set<nat> {
    set x | x in s
  }

  /** validateIngestionResponse; a rejection is known by its index. */
  function ValidateIngestionResponse(status: int, body: Body, attemptedRows: nat): Outcome {
    if status != 200 || body.OtherBody? then InvalidResponse(status)
    else if body.accepted.None? || body.accepted.value < 0 || body.rejected.None? || !NonNegative(body.rejected.value)
         || body.accepted.value + |body.rejected.value| != attemptedRows
    then InvalidResponse(status)
    else
      var rejected := AsIndexes(body.rejected.value);
      var indexes := SetOf(rejected);
      if |indexes| != |rejected| || exists i :: 0 <= i < |rejected| && rejected[i] >= attemptedRows
      then InvalidResponse(status)
      else Success(body.accepted.value, rejected)
  }

  ghost predicate Distinct(s: seq<nat>) {
    forall i, j :: 0 <= i < j < |s| ==> s[i] != s[j]
  }

  lemma {:induction false} DistinctBySize(s: seq<nat>)
    ensures |SetOf(s)| <= |s|
    ensures |SetOf(s)| == |s| <==> Distinct(s)
  {
    if s != [] {
      var front, last := s[..|s| - 1], s[|s| - 1];
      DistinctBySize(front);
      assert SetOf(s) == SetOf(front) + {last};
      if last in SetOf(front) {
        assert SetOf(s) == SetOf(front);
      } else {
        assert |SetOf(s)| == |SetOf(front)| + 1;
        assert forall i :: 0 <= i < |front| ==> front[i] == s[i] && s[i] in front;
      }
      assert Distinct(s) ==> Distinct(front) && last !in front;
    }
  }

  /**
   A response counts as a success exactly when it splits the batch: distinct rejected rows of it, the
   others accepted.
   */
  lemma SuccessSplitsBatch(status: int, body: Body, attemptedRows: nat)
    ensures var outcome := ValidateIngestionResponse(status, body, attemptedRows);
            && !outcome.Http? && !outcome.Timeout? && !outcome.Transport?
            && (outcome.Success? <==>
                  && status == 200 && body.Record? && body.accepted.Some? && body.rejected.Some?
                  && 0 <= body.accepted.value && body.accepted.value == attemptedRows - |body.rejected.value|
                  && var rejected := body.rejected.value;
                     && (forall i :: 0 <= i < |rejected| ==> 0 <= rejected[i] < attemptedRows)
                     && forall i, j :: 0 <= i < j < |rejected| ==> rejected[i] != rejected[j])
            && (outcome.Success? ==> outcome.accepted + |outcome.rejected| == attemptedRows)
  {
    if body.Record? && body.rejected.Some? && NonNegative(body.rejected.value) {
      var rejected, indexes := body.rejected.value, AsIndexes(body.rejected.value);
      DistinctBySize(indexes);
      assert forall i :: 0 <= i < |rejected| ==> indexes[i] == rejected[i];
      assert Distinct(indexes) <==> forall i, j :: 0 <= i < j < |rejected| ==> rejected[i] != rejected[j] by {
        if Distinct(indexes) {
          forall i, j | 0 <= i < j < |rejected| ensures rejected[i] != rejected[j] {
            assert indexes[i] != indexes[j];
          }
        }
      }
    }
  }

  // ---------------------------------------------------------------- steps

  /** `statusCodes` counts occurrences of a status. */
  datatype Counters = Counters(
    requestsStarted: nat, requestsCompleted: nat, statusCodes: multiset<int>,
    transportFailures: nat, timeouts: nat, invalidResponses: nat,
    attemptedRows: nat, confirmedAcceptedRows: nat, serverRejectedRows: nat, indeterminateRows: nat)

  const ZERO := Counters(0, 0, multiset{}, 0, 0, 0, 0, 0, 0, 0)

  datatype Worker = AtLoop | Awaiting(batch: Batch) | Returned

  datatype State = State(
    nextBatchIndex: nat, workers: seq<Worker>, counters: Counters,
    dispatched: seq<Batch>,    // every batch ever sent, in order
    aborted: bool)

  function Initial(c: Config): State
    requires IsConfig(c)
  {
    State(0, seq(if c.concurrency < BatchCount(c) then c.concurrency else BatchCount(c), _ => AtLoop), ZERO, [], false)
  }

  /** The worker at the top of its loop. */
  function TurnStep(c: Config, s: State, w: nat): State
    requires IsConfig(c) && w < |s.workers|
  {
    if s.nextBatchIndex >= BatchCount(c) || s.aborted then s.(workers := s.workers[w := Returned]) else
    CreatedIffCounted(c, s.nextBatchIndex);
    var batch := CreateWorkloadBatch(c, s.nextBatchIndex).value;
    s.(nextBatchIndex := s.nextBatchIndex + 1, workers := s.workers[w := Awaiting(batch)],
       counters := s.counters.(requestsStarted := s.counters.requestsStarted + 1,
                               attemptedRows := s.counters.attemptedRows + |batch.ordinals|),
       dispatched := s.dispatched + [batch])
  }

  function CountOutcome(k: Counters, outcome: Outcome, rowCount: nat): Counters {
    var done := k.(requestsCompleted := k.requestsCompleted + 1);
    match outcome
    case Success(accepted, rejected) =>
      done.(statusCodes := k.statusCodes + multiset{200},
            confirmedAcceptedRows := k.confirmedAcceptedRows + accepted,
            serverRejectedRows := k.serverRejectedRows + |rejected|)
    case Http(status) =>
      done.(statusCodes := k.statusCodes + multiset{status}, indeterminateRows := k.indeterminateRows + rowCount)
    case Timeout => done.(timeouts := k.timeouts + 1, indeterminateRows := k.indeterminateRows + rowCount)
    case Transport =>
      done.(transportFailures := k.transportFailures + 1, indeterminateRows := k.indeterminateRows + rowCount)
    case InvalidResponse(status) =>
      done.(statusCodes := k.statusCodes + multiset{status}, invalidResponses := k.invalidResponses + 1,
            indeterminateRows := k.indeterminateRows + rowCount)
  }

  function ResultStep(s: State, w: nat, outcome: Outcome): State
    requires w < |s.workers| && s.workers[w].Awaiting?
  {
    s.(workers := s.workers[w := AtLoop], counters := CountOutcome(s.counters, outcome, |s.workers[w].batch.ordinals|))
  }

  datatype Event = Turn(worker: nat) | Result(worker: nat, outcome: Outcome) | Abort

  /** What the sender may answer for a batch: a success has been validated against its rows. */
  predicate IsAnswer(outcome: Outcome, batch: Batch) {
    outcome.Success? ==> outcome.accepted + |outcome.rejected| == |batch.ordinals|
  }

  predicate Enabled(s: State, e: Event) {
    match e
    case Turn(w) => w < |s.workers| && s.workers[w].AtLoop?
    case Result(w, outcome) => w < |s.workers| && s.workers[w].Awaiting? && IsAnswer(outcome, s.workers[w].batch)
    case Abort => true
  }

  function Next(c: Config, s: State, e: Event): State
    requires IsConfig(c) && Enabled(s, e)
  {
    match e
    case Turn(w) => TurnStep(c, s, w)
    case Result(w, outcome) => ResultStep(s, w, outcome)
    case Abort => s.(aborted := true)
  }

  // ---------------------------------------------------------------- what every state satisfies

  function OutstandingRows(workers: seq<Worker>): nat {
    if workers == [] then 0
    else (if workers[0].Awaiting? then |workers[0].batch.ordinals| else 0) + OutstandingRows(workers[1..])
  }

  function Outstanding(workers: seq<Worker>): nat {
    if workers == [] then 0 else (if workers[0].Awaiting? then 1 else 0) + Outstanding(workers[1..])
  }

  ghost predicate DispatchInvariant(c: Config, s: State)
    requires IsConfig(c)
  {
    && s.nextBatchIndex <= BatchCount(c)
    && s.dispatched == FirstBatches(c, s.nextBatchIndex)
    && s.counters.requestsStarted == s.nextBatchIndex
    && s.counters.attemptedRows == Covered(c, s.nextBatchIndex)
    && (forall w :: 0 <= w < |s.workers| && s.workers[w].Returned? ==> s.aborted || s.nextBatchIndex == BatchCount(c))
    && (BatchCount(c) > 0 ==> s.workers != [])
  }

  /** Requests by how they ended, and rows by what became of them. */
  function AnswerCount(k: Counters): nat {
    |k.statusCodes| + k.timeouts + k.transportFailures
  }

  function RowCount(k: Counters): nat {
    k.confirmedAcceptedRows + k.serverRejectedRows + k.indeterminateRows
  }

  ghost predicate OutcomeInvariant(s: State) {
    var k := s.counters;
    && k.requestsStarted == k.requestsCompleted + Outstanding(s.workers)
    && k.requestsCompleted == AnswerCount(k)
    && k.attemptedRows == RowCount(k) + OutstandingRows(s.workers)
  }

  ghost predicate Invariant(c: Config, s: State) {
    IsConfig(c) && DispatchInvariant(c, s) && OutcomeInvariant(s)
  }

  /** The rows sent are the first rows of the range, in order and each once. */
  ghost predicate SentRows(c: Config, s: State)
    requires IsConfig(c)
  {
    && s.nextBatchIndex <= BatchCount(c)
    && s.dispatched == FirstBatches(c, s.nextBatchIndex)
    && s.counters.attemptedRows == Covered(c, s.nextBatchIndex)
    && Ordinals(s.dispatched) == FirstRows(s.counters.attemptedRows)
  }

  lemma {:induction false} ChangedWorker(workers: seq<Worker>, w: nat, worker: Worker)
    requires w < |workers|
    ensures var after, was := workers[w := worker], workers[w];
            && Outstanding(after) ==
                 Outstanding(workers) + (if worker.Awaiting? then 1 else 0) - (if was.Awaiting? then 1 else 0)
            && OutstandingRows(after) ==
                 OutstandingRows(workers) + (if worker.Awaiting? then |worker.batch.ordinals| else 0)
                 - (if was.Awaiting? then |was.batch.ordinals| else 0)
  {
    var after := workers[w := worker];
    if w == 0 {
      assert after[1..] == workers[1..];
    } else {
      ChangedWorker(workers[1..], w - 1, worker);
      assert after[1..] == workers[1..][w - 1 := worker];
    }
  }

  lemma TurnKeeps(c: Config, s: State, w: nat)
    requires Invariant(c, s) && Enabled(s, Turn(w))
    ensures Invariant(c, TurnStep(c, s, w))
  {
    hide Outstanding, OutstandingRows, BatchCount, CreateWorkloadBatch, Covered;
    var t := TurnStep(c, s, w);
    ChangedWorker(s.workers, w, t.workers[w]);
    if s.nextBatchIndex < BatchCount(c) && !s.aborted {
      CreatedIffCounted(c, s.nextBatchIndex);
      CoveredStep(c, s.nextBatchIndex);
    }
  }

  lemma TurnSends(c: Config, s: State, w: nat)
    requires IsConfig(c) && w < |s.workers| && s.nextBatchIndex < BatchCount(c) && !s.aborted
    requires CreateWorkloadBatch(c, s.nextBatchIndex).Some?
    ensures var batch := CreateWorkloadBatch(c, s.nextBatchIndex).value;
            TurnStep(c, s, w) ==
              State(s.nextBatchIndex + 1, s.workers[w := Awaiting(batch)],
                    s.counters.(requestsStarted := s.counters.requestsStarted + 1,
                                attemptedRows := s.counters.attemptedRows + |batch.ordinals|),
                    s.dispatched + [batch], s.aborted)
  {
    hide CreateWorkloadBatch, BatchCount;
  }

  lemma SendMovesOn(c: Config, s: State, w: nat)
    requires IsConfig(c) && w < |s.workers| && s.nextBatchIndex < BatchCount(c) && !s.aborted
    ensures SentRows(c, s) ==> SentRows(c, TurnStep(c, s, w))
    ensures Ordinals(s.dispatched) < Ordinals(TurnStep(c, s, w).dispatched)
  {
    BatchHasRows(c, s.nextBatchIndex);
    hide BatchCount, CreateWorkloadBatch, Ordinals, IsConfig, TurnStep, SentRows;
    var batch := CreateWorkloadBatch(c, s.nextBatchIndex).value;
    TurnSends(c, s, w);
    OrdinalsGrow(s.dispatched, batch);
    if SentRows(c, s) {
      SentRowsGrow(c, s, TurnStep(c, s, w), batch);
    }
  }

  lemma OrdinalsGrow(batches: seq<Batch>, batch: Batch)
    requires batch.ordinals != []
    ensures Ordinals(batches) < Ordinals(batches + [batch])
  {
    OrdinalsAppend(batches, batch);
  }

  lemma SentRowsGrow(c: Config, s: State, t: State, batch: Batch)
    requires IsConfig(c) && SentRows(c, s) && s.nextBatchIndex < BatchCount(c)
    requires CreateWorkloadBatch(c, s.nextBatchIndex) == Some(batch)
    requires t.nextBatchIndex == s.nextBatchIndex + 1 && t.dispatched == s.dispatched + [batch]
    requires t.counters.attemptedRows == s.counters.attemptedRows + |batch.ordinals|
    ensures SentRows(c, t)
  {
    hide BatchCount, CreateWorkloadBatch, Covered, Ordinals, FirstBatches, FirstRows, IsConfig;
    FirstBatchesTile(c, s.nextBatchIndex + 1);
    NextOfFirst(c, s.nextBatchIndex);
    CoveredStep(c, s.nextBatchIndex);
  }

  lemma BatchHasRows(c: Config, k: nat)
    requires IsConfig(c) && k < BatchCount(c)
    ensures CreateWorkloadBatch(c, k).Some? && CreateWorkloadBatch(c, k).value.ordinals != []
  {
    CreatedIffCounted(c, k);
    hide BatchCount;
  }

  lemma NextOfFirst(c: Config, k: nat)
    requires IsConfig(c) && k < BatchCount(c) && CreateWorkloadBatch(c, k).Some?
    ensures FirstBatches(c, k + 1) == FirstBatches(c, k) + [CreateWorkloadBatch(c, k).value]
  {
    hide BatchCount, CreateWorkloadBatch;
  }

  lemma ResultKeeps(c: Config, s: State, w: nat, outcome: Outcome)
    requires Invariant(c, s) && Enabled(s, Result(w, outcome))
    ensures Invariant(c, ResultStep(s, w, outcome))
  {
    hide Outstanding, OutstandingRows, BatchCount, FirstBatches, Covered;
    ChangedWorker(s.workers, w, AtLoop);
  }

  lemma NextKeepsInvariant(c: Config, s: State, e: Event)
    requires Invariant(c, s) && Enabled(s, e)
    ensures Invariant(c, Next(c, s, e))
  {
    hide TurnStep, ResultStep, Outstanding, OutstandingRows, BatchCount, FirstBatches, Covered;
    match e
    case Turn(w) => TurnKeeps(c, s, w);
    case Result(w, outcome) => ResultKeeps(c, s, w, outcome);
    case Abort =>
  }

  lemma InitialIsGood(c: Config)
    requires IsConfig(c)
    ensures Invariant(c, Initial(c))
  {
    NoneSent(c);
    hide BatchCount, FirstBatches, Covered, Outstanding, OutstandingRows;
    NoneOutstanding(Initial(c).workers);
  }

  lemma NoneSent(c: Config)
    requires IsConfig(c)
    ensures Covered(c, 0) == 0 && FirstBatches(c, 0) == []
  {
    assert 0 * c.batchSize == 0;
  }

  lemma {:induction false} NoneOutstanding(workers: seq<Worker>)
    requires forall w :: 0 <= w < |workers| ==> !workers[w].Awaiting?
    ensures Outstanding(workers) == 0 && OutstandingRows(workers) == 0
  {
    if workers != [] {
      NoneOutstanding(workers[1..]);
    }
  }

  // ---------------------------------------------------------------- whole phases

  ghost predicate IsRun(c: Config, s: State, events: seq<Event>)
    requires IsConfig(c)
    decreases |events|
  {
    events == [] || (Enabled(s, events[0]) && IsRun(c, Next(c, s, events[0]), events[1..]))
  }

  ghost function AfterRun(c: Config, s: State, events: seq<Event>): State
    requires IsConfig(c) && IsRun(c, s, events)
    decreases |events|
  {
    if events == [] then s else AfterRun(c, Next(c, s, events[0]), events[1..])
  }

  lemma {:induction false} RunKeepsInvariant(c: Config, s: State, events: seq<Event>)
    requires Invariant(c, s) && IsRun(c, s, events)
    ensures Invariant(c, AfterRun(c, s, events))
    decreases |events|
  {
    if events == [] {
    } else {
      hide Invariant, Next, Enabled;
      NextKeepsInvariant(c, s, events[0]);
      assert IsConfig(c);
      RunKeepsInvariant(c, Next(c, s, events[0]), events[1..]);
    }
  }

  /**
   At every moment of every phase the batches sent are a prefix of the workload, each once and in order,
   and their rows are the first rows of the range, each once.
   */
  lemma DispatchedIsPrefix(c: Config, events: seq<Event>)
    requires IsConfig(c) && IsRun(c, Initial(c), events)
    ensures var s := AfterRun(c, Initial(c), events);
            && |s.dispatched| <= BatchCount(c)
            && (forall i :: 0 <= i < |s.dispatched| ==> CreateWorkloadBatch(c, i) == Some(s.dispatched[i]))
            && Ordinals(s.dispatched) == FirstRows(s.counters.attemptedRows)
  {
    InitialIsGood(c);
    RunKeepsInvariant(c, Initial(c), events);
    hide IsRun, AfterRun, BatchCount, CreateWorkloadBatch, Outstanding, OutstandingRows;
    var n := AfterRun(c, Initial(c), events).nextBatchIndex;
    FirstBatchesTile(c, n);
    FirstBatchAt(c, n);
  }

  lemma {:induction false} FirstBatchAt(c: Config, n: nat)
    requires IsConfig(c) && n <= BatchCount(c)
    ensures |FirstBatches(c, n)| == n
    ensures forall i :: 0 <= i < n ==> CreateWorkloadBatch(c, i) == Some(FirstBatches(c, n)[i])
  {
    hide BatchCount, CreateWorkloadBatch;
    if n > 0 {
      CreatedIffCounted(c, n - 1);
      FirstBatchAt(c, n - 1);
    }
  }

  // ---------------------------------------------------------------- concurrency, progress and outcomes

  /** No more requests are outstanding than the configured concurrency, and no more workers than batches. */
  lemma {:induction false} ConcurrencyIsBounded(c: Config, s: State, events: seq<Event>)
    requires IsConfig(c) && IsRun(c, s, events)
    ensures |AfterRun(c, s, events).workers| == |s.workers|
    ensures s == Initial(c) ==>
              && |s.workers| == (if c.concurrency <= BatchCount(c) then c.concurrency else BatchCount(c))
              && Outstanding(AfterRun(c, s, events).workers) <= c.concurrency
    decreases |events|
  {
    if events != [] {
      StepKeepsWorkers(c, s, events[0]);
      ConcurrencyIsBounded(c, Next(c, s, events[0]), events[1..]);
    }
    OutstandingBound(AfterRun(c, s, events).workers);
  }

  lemma StepKeepsWorkers(c: Config, s: State, e: Event)
    requires IsConfig(c) && Enabled(s, e)
    ensures |Next(c, s, e).workers| == |s.workers|
  {
    hide BatchCount, CreateWorkloadBatch, CountOutcome;
  }

  lemma {:induction false} OutstandingBound(workers: seq<Worker>)
    ensures Outstanding(workers) <= |workers|
  {
    if workers != [] {
      OutstandingBound(workers[1..]);
    }
  }

  function WorkLeft(workers: seq<Worker>): nat {
    if workers == [] then 0
    else (match workers[0] case Awaiting(_) => 2 case AtLoop => 1 case Returned => 0) + WorkLeft(workers[1..])
  }

  lemma {:induction false} WorkChanges(workers: seq<Worker>, w: nat, worker: Worker)
    requires w < |workers|
    ensures WorkLeft(workers[w := worker])
         == WorkLeft(workers) - (if workers[w].Awaiting? then 2 else if workers[w].AtLoop? then 1 else 0)
            + (if worker.Awaiting? then 2 else if worker.AtLoop? then 1 else 0)
  {
    var after := workers[w := worker];
    if w == 0 {
      assert after[1..] == workers[1..];
    } else {
      WorkChanges(workers[1..], w - 1, worker);
      assert after[1..] == workers[1..][w - 1 := worker];
    }
  }

  function Rank(c: Config, s: State): int
    requires IsConfig(c)
  {
    3 * (BatchCount(c) - s.nextBatchIndex) + WorkLeft(s.workers)
  }

  ghost predicate AllReturned(workers: seq<Worker>) {
    forall w :: 0 <= w < |workers| ==> workers[w].Returned?
  }

  /** Until all workers have returned, one of them can take its turn or get its result, and the rank falls. */
  lemma PhaseGoesOn(c: Config, s: State) returns (e: Event)
    requires Invariant(c, s) && !AllReturned(s.workers)
    ensures Enabled(s, e) && !e.Abort? && Rank(c, Next(c, s, e)) < Rank(c, s)
  {
    var w :| 0 <= w < |s.workers| && !s.workers[w].Returned?;
    if s.workers[w].AtLoop? {
      e := Turn(w);
      if s.nextBatchIndex < BatchCount(c) && !s.aborted {
        CreatedIffCounted(c, s.nextBatchIndex);
        hide BatchCount, CreateWorkloadBatch, WorkLeft, Invariant;
        TurnSends(c, s, w);
      } else {
        hide BatchCount, CreateWorkloadBatch, WorkLeft, Invariant;
      }
    } else {
      e := Result(w, Timeout);
      hide BatchCount, CreateWorkloadBatch, WorkLeft, Invariant;
    }
    WorkChanges(s.workers, w, Next(c, s, e).workers[w]);
  }

  /** A phase can be completed from every state: all workers return, and without an abort every row is sent. */
  lemma {:induction false} PhaseCompletes(c: Config, s: State) returns (events: seq<Event>)
    requires Invariant(c, s)
    ensures IsRun(c, s, events) && AllReturned(AfterRun(c, s, events).workers)
    ensures AfterRun(c, s, events).aborted == s.aborted
    decreases Rank(c, s)
  {
    assert IsConfig(c);
    if AllReturned(s.workers) {
      events := [];
    } else {
      RankIsNatural(c, s);
      var e := PhaseGoesOn(c, s);
      NextKeepsInvariant(c, s, e);
      OnlyAbortAborts(c, s, e);
      hide Invariant, Next, Enabled, Rank, AllReturned;
      var more := PhaseCompletes(c, Next(c, s, e));
      events := [e] + more;
      assert events[1..] == more;
    }
  }

  lemma RankIsNatural(c: Config, s: State)
    requires Invariant(c, s)
    ensures Rank(c, s) >= 0
  {
    hide BatchCount, FirstBatches, Covered;
  }

  lemma OnlyAbortAborts(c: Config, s: State, e: Event)
    requires IsConfig(c) && Enabled(s, e)
    ensures e.Abort? || Next(c, s, e).aborted == s.aborted
  {
    hide BatchCount, CreateWorkloadBatch, CountOutcome;
  }

  /** The status of a response, 200 for a success; timeouts and transport failures have none. */
  function StatusOf(outcome: Outcome): Option<int> {
    match outcome
    case Success(_, _) => Some(200)
    case Http(status) => Some(status)
    case InvalidResponse(status) => Some(status)
    case Timeout => None
    case Transport => None
  }

  function Results(events: seq<Event>, holds: Outcome -> bool): nat {
    if events == [] then 0
    else (if events[0].Result? && holds(events[0].outcome) then 1 else 0) + Results(events[1..], holds)
  }

  lemma StepCountsResult(c: Config, s: State, e: Event, status: int)
    requires IsConfig(c) && Enabled(s, e)
    ensures var k, l := s.counters, Next(c, s, e).counters;
            && l.statusCodes[status]
               == k.statusCodes[status] + (if e.Result? && StatusOf(e.outcome) == Some(status) then 1 else 0)
            && l.timeouts == k.timeouts + (if e.Result? && e.outcome.Timeout? then 1 else 0)
            && l.transportFailures == k.transportFailures + (if e.Result? && e.outcome.Transport? then 1 else 0)
            && l.invalidResponses == k.invalidResponses + (if e.Result? && e.outcome.InvalidResponse? then 1 else 0)
  {
    hide BatchCount, CreateWorkloadBatch;
  }

  /** In every phase each count of outcomes is the number of results that had this outcome. */
  lemma {:induction false} ResultsAreCounted(c: Config, s: State, events: seq<Event>, status: int)
    requires IsConfig(c) && IsRun(c, s, events)
    ensures var k, l := s.counters, AfterRun(c, s, events).counters;
            && l.statusCodes[status]
               == k.statusCodes[status] + Results(events, (o: Outcome) => StatusOf(o) == Some(status))
            && l.timeouts == k.timeouts + Results(events, (o: Outcome) => o.Timeout?)
            && l.transportFailures == k.transportFailures + Results(events, (o: Outcome) => o.Transport?)
            && l.invalidResponses == k.invalidResponses + Results(events, (o: Outcome) => o.InvalidResponse?)
    decreases |events|
  {
    hide Next, Enabled, StatusOf;
    if events != [] {
      StepCountsResult(c, s, events[0], status);
      ResultsAreCounted(c, Next(c, s, events[0]), events[1..], status);
    }
  }

  /** assertIngestionAccounting on the counters immutableCounters derives. */
  predicate AccountingPasses(c: Config, k: Counters)
    requires IsConfig(c)
  {
    var requestsNotStarted, requestsUnresolved :=
      BatchCount(c) - k.requestsStarted, k.requestsStarted - k.requestsCompleted;
    var rowsNotAttempted := c.totalRows - k.attemptedRows;
    && BatchCount(c) == k.requestsStarted + requestsNotStarted
    && k.requestsStarted == k.requestsCompleted + requestsUnresolved
    && c.totalRows == k.attemptedRows + rowsNotAttempted
    && k.attemptedRows == k.confirmedAcceptedRows + k.serverRejectedRows + k.indeterminateRows
  }

  /**
   When every worker has returned the accounting check passes, no request is unresolved and no count of
   rows or requests left over is negative; without an abort every row has been sent.
   */
  lemma AccountingNeverThrows(c: Config, events: seq<Event>)
    requires IsConfig(c) && IsRun(c, Initial(c), events)
    requires forall w :: 0 <= w < |AfterRun(c, Initial(c), events).workers| ==>
      AfterRun(c, Initial(c), events).workers[w].Returned?
    ensures var s := AfterRun(c, Initial(c), events);
            && AccountingPasses(c, s.counters)
            && s.counters.requestsStarted == s.counters.requestsCompleted <= BatchCount(c)
            && s.counters.requestsCompleted ==
                 |s.counters.statusCodes| + s.counters.timeouts + s.counters.transportFailures
            && s.counters.attemptedRows <= c.totalRows
            && (!s.aborted ==> s.counters.requestsStarted == BatchCount(c) && s.counters.attemptedRows == c.totalRows)
  {
    InitialIsGood(c);
    RunKeepsInvariant(c, Initial(c), events);
    hide IsRun, AfterRun, BatchCount, FirstBatches, Outstanding, OutstandingRows;
    var s := AfterRun(c, Initial(c), events);
    NoneOutstanding(s.workers);
    AllBatchesCoverAllRows(c);
    if !s.aborted && BatchCount(c) > 0 {
      assert s.workers[0].Returned?;
    }
  }

  // ---------------------------------------------------------------- the phase's variables

  class Phase {
    const config: Config

    var nextBatchIndex: nat
    var workers: seq<Worker>
    var counters: Counters
    var aborted: bool

    // The batches handed to the sender.
    var dispatched: seq<Batch>

    ghost function Current(): State
      reads this
    {
      State(nextBatchIndex, workers, counters, dispatched, aborted)
    }

    ghost predicate Valid()
      reads this
    {
      Invariant(config, Current())
    }

    constructor (config: Config)
      requires IsConfig(config)
      ensures Valid() && this.config == config && Current() == Initial(config)
    {
      InitialIsGood(config);
      this.config := config;
      nextBatchIndex, counters, aborted, dispatched := 0, ZERO, false, [];
      var count := if config.concurrency < BatchCount(config) then config.concurrency else BatchCount(config);
      workers := seq(count, _ => AtLoop);
      new;
      hide Invariant;
    }

    /** A pass of the loop up to the await of the sender: the rows after those sent so far are sent next. */
    method SendNextBatch(w: nat)
      requires IsConfig(config) && w < |workers| && nextBatchIndex < BatchCount(config) && !aborted
      modifies this
      ensures old(SentRows(config, Current())) ==> SentRows(config, Current())
      ensures Ordinals(old(dispatched)) < Ordinals(dispatched)
      ensures Current() == TurnStep(config, old(Current()), w)
    {
      CreatedIffCounted(config, nextBatchIndex);
      TurnSends(config, Current(), w);
      SendMovesOn(config, Current(), w);
      hide TurnStep, BatchCount, CreateWorkloadBatch, IsConfig;
      var batchIndex := nextBatchIndex;
      nextBatchIndex := nextBatchIndex + 1;
      var batch := CreateWorkloadBatch(config, batchIndex).value;
      counters := counters.(requestsStarted := counters.requestsStarted + 1,
                            attemptedRows := counters.attemptedRows + |batch.ordinals|);
      workers := workers[w := Awaiting(batch)];
      dispatched := dispatched + [batch];
    }

    method WorkerTurn(w: nat)
      requires Valid() && w < |workers| && workers[w].AtLoop?
      modifies this
      ensures Valid() && Current() == TurnStep(config, old(Current()), w)
    {
      TurnKeeps(config, Current(), w);
      assert IsConfig(config);
      hide Invariant, BatchCount, CreateWorkloadBatch, IsConfig;
      if nextBatchIndex >= BatchCount(config) || aborted {
        workers := workers[w := Returned];
        return;
      }
      SendNextBatch(w);
    }

    /** An answer that splits the batch's rows puts every one of them under exactly one count. */
    method CountResult(outcome: Outcome, rowCount: nat)
      modifies `counters
      ensures counters.requestsCompleted == old(counters).requestsCompleted + 1
      ensures AnswerCount(counters) == AnswerCount(old(counters)) + 1
      ensures (outcome.Success? ==> outcome.accepted + |outcome.rejected| == rowCount) ==>
                RowCount(counters) == RowCount(old(counters)) + rowCount
      ensures counters.requestsStarted == old(counters).requestsStarted
      ensures counters.attemptedRows == old(counters).attemptedRows
      ensures counters == CountOutcome(old(counters), outcome, rowCount)
    {
      counters := counters.(requestsCompleted := counters.requestsCompleted + 1);
      match outcome {
        case Success(accepted, rejected) =>
          counters := counters.(statusCodes := counters.statusCodes + multiset{200},
                                confirmedAcceptedRows := counters.confirmedAcceptedRows + accepted,
                                serverRejectedRows := counters.serverRejectedRows + |rejected|);
        case Http(status) =>
          counters := counters.(statusCodes := counters.statusCodes + multiset{status},
                                indeterminateRows := counters.indeterminateRows + rowCount);
        case Timeout =>
          counters := counters.(timeouts := counters.timeouts + 1,
                                indeterminateRows := counters.indeterminateRows + rowCount);
        case Transport =>
          counters := counters.(transportFailures := counters.transportFailures + 1,
                                indeterminateRows := counters.indeterminateRows + rowCount);
        case InvalidResponse(status) =>
          counters := counters.(statusCodes := counters.statusCodes + multiset{status},
                                invalidResponses := counters.invalidResponses + 1,
                                indeterminateRows := counters.indeterminateRows + rowCount);
      }
    }

    method ResultArrives(w: nat, outcome: Outcome)
      requires Valid() && w < |workers| && workers[w].Awaiting? && IsAnswer(outcome, workers[w].batch)
      modifies this
      ensures Valid() && Current() == ResultStep(old(Current()), w, outcome)
    {
      ResultKeeps(config, Current(), w, outcome);
      hide Invariant, IsAnswer, Enabled, CountOutcome;
      CountResult(outcome, |workers[w].batch.ordinals|);
      workers := workers[w := AtLoop];
    }
  }
}
