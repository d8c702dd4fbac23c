/**
 * The reindex coordinator (`ReindexManager`): it owns the stream of object
 * ids, a fixed pool of worker threads, the two progress counters and the
 * membership-indexing transaction. Threads are modelled by their observable
 * events: a worker's start, its termination (what `join` waits for) and its
 * stop flag, and whether the progress reporter is running.
 */
module Reindex {

  import opened Wrappers
  import opened JavaInt
  import Text
  import Batching
  import Counters

  /** The exceptions the coordinator raises or lets through. */
  datatype Failure =
    | IllegalState(workerCount: int)     // constructor: fewer than one worker thread
    | IllegalCapacity(capacity: Int32)   // getIds: `new ArrayList<>((int) batchSize)` with a negative capacity
    | IllegalThreadState                 // start: a worker thread started a second time
    | Interrupted                        // start: the wait for a worker was interrupted
    | MembershipIndexingFailed           // the reindex service's membership indexing threw
    | CommitFailed                       // committing the membership transaction threw

  /** Which collaborator, if any, throws while `start` runs. */
  datatype Fault = NoFault | JoinInterrupted | IndexingThrows | CommitThrows

  /** How a run that returns normally ended: membership indexed, or finalization skipped. */
  datatype RunOutcome = Finalized | Incomplete

  /** The name of the `i`-th worker thread. */
  function WorkerName(i: nat): string
  {
    "ReindexWorker-" + Text.NatToString(i)
  }

  /** A worker's name is the prefix followed by decimal digits that read back as its index. */
  lemma WorkerNameReadsBack(i: nat)
    ensures var name := WorkerName(i);
      && |name| > 14 && name[..14] == "ReindexWorker-"
      && Text.AllDigits(name[14..]) && Text.ParseDigits(name[14..]) == i
  {
    Text.ParseNatToString(i);
    assert WorkerName(i)[14..] == Text.NatToString(i);
  }

  /** Worker names are distinct: the name gives back the index. */
  lemma WorkerNamesDistinct(i: nat, j: nat)
    ensures WorkerName(i) == WorkerName(j) <==> i == j
  {
    var prefix := "ReindexWorker-";
    if WorkerName(i) == WorkerName(j) {
      assert WorkerName(i)[|prefix|..] == Text.NatToString(i);
      assert WorkerName(j)[|prefix|..] == Text.NatToString(j);
      Text.NatToStringInjective(i, j);
    }
  }

  /**
   * Membership indexing runs after the join exactly when errors do not
   * block it: the fail-on-error policy is off, or no item failed.
   */
  predicate FinalizationAllowed(failOnError: bool, errorCount: Int32)
  {
    !failOnError || errorCount == 0
  }

  /**
   * After the workers' reports, membership indexing is allowed exactly when
   * fail-on-error is off or the reported errors, added to the counter's
   * start, are a multiple of 2^32 (the counter wraps). Without overflow this
   * is: no error was reported.
   */
  lemma FinalizationAfterReports(failOnError: bool, t: Counters.Totals, reports: seq<Counters.Report>)
    ensures var errors := t.errored + Counters.SumErrors(reports);
      var allowed := FinalizationAllowed(failOnError, Counters.ApplyAll(t, reports).errored);
      && (allowed <==> !failOnError || errors % TwoTo32 == 0)
      && (-TwoTo31 <= errors < TwoTo31 ==> (allowed <==> !failOnError || errors == 0))
  {
    Counters.ApplyAllIsSum(t, reports);
    var errors := t.errored + Counters.SumErrors(reports);
    Wrap32IsZero(errors);
  }

  /** A worker thread, seen from the coordinator. */
  class ReindexWorker {

    const name: string
    var started: bool
    var finished: bool
    var stopRequested: bool

    constructor (name: string)
      ensures this.name == name && !started && !finished && !stopRequested
    {
      this.name := name;
      started, finished, stopRequested := false, false, false;
    }

    /** `Thread.start`: fails (IllegalThreadStateException) on a thread started before. */
    method Start() returns (ok: bool)
      modifies this
      ensures ok == !old(started) && started
      ensures finished == old(finished) && stopRequested == old(stopRequested)
    {
      ok := !started;
      started := true;
    }

    /** `Thread.join`: returns once the thread has finished. */
    method Join()
      modifies this
      ensures finished
      ensures started == old(started) && stopRequested == old(stopRequested)
    {
      finished := true;
    }

    /** `stopThread`: raises the cooperative stop flag; the thread honours it at its next batch. */
    method StopThread()
      modifies this
      ensures stopRequested
      ensures started == old(started) && finished == old(finished)
    {
      stopRequested := true;
    }
  }

  /** The membership-indexing transaction. */
  class Transaction {

    var shortLived: bool
    var commits: nat

    /** What the transaction manager's `create` returns. */
    constructor ()
      ensures !shortLived && commits == 0
    {
      shortLived, commits := false, 0;
    }

    method SetShortLived(value: bool)
      modifies this
      ensures shortLived == value && commits == old(commits)
    {
      shortLived := value;
    }

    method Commit()
      modifies this
      ensures commits == old(commits) + 1 && shortLived == old(shortLived)
    {
      commits := commits + 1;
    }
  }

  class ReindexManager {

    /** The contents of the id stream, in stream order. */
    const ids: seq<string>
    /** How many ids the stream's iterator has handed out. */
    var cursor: nat
    const batchSize: Int64
    const failOnError: bool
    const workers: seq<ReindexWorker>
    var completedCount: Int32
    var errorCount: Int32
    var transaction: Transaction?
    /** How many transactions this coordinator has asked the transaction manager for. */
    ghost var transactionsCreated: nat
    /** Whether the progress reporter thread is running. */
    ghost var reporterRunning: bool

    ghost predicate Valid()
      reads this, workers, transaction
    {
      && cursor <= |ids|
      && |workers| >= 1
      && (forall i :: 0 <= i < |workers| ==> workers[i].name == WorkerName(i))
      && (forall i :: 0 <= i < |workers| ==> workers[i].started == workers[0].started)
      && transactionsCreated <= 1
      && (transaction == null <==> transactionsCreated == 0)
      && (transaction != null ==> transaction.shortLived)
    }

    /** Workers are distinct objects, since their names are distinct. */
    lemma WorkersDistinct()
      requires Valid()
      ensures forall i, j :: 0 <= i < |workers| && 0 <= j < |workers| && i != j ==> workers[i] != workers[j]
    {
      forall i, j | 0 <= i < |workers| && 0 <= j < |workers| && i != j
        ensures workers[i] != workers[j]
      {
        WorkerNamesDistinct(i, j);
      }
    }

    function Counts(): Counters.Totals
      reads this
    {
      Counters.Totals(completedCount, errorCount)
    }

    /** Whether the worker threads have been started (they all are, or none is). */
    ghost predicate WorkersStarted()
      reads this, workers
      requires |workers| >= 1
    {
      workers[0].started
    }

    ghost predicate AllStopRequested()
      reads this, workers
    {
      forall i :: 0 <= i < |workers| ==> workers[i].stopRequested
    }

    /** The transaction's commits so far; none when there is no transaction yet. */
    ghost function Commits(): nat
      reads this, transaction
    {
      if transaction == null then 0 else transaction.commits
    }

    /**
     * The constructor for a valid worker count: `workerCount` fresh workers
     * named "ReindexWorker-0" onwards, none of them started, the counters at
     * zero and no transaction.
     */
    constructor (ids: seq<string>, batchSize: Int64, workerCount: Int32, failOnError: bool)
      requires workerCount >= 1
      ensures Valid()
      ensures this.ids == ids && cursor == 0 && this.batchSize == batchSize && this.failOnError == failOnError
      ensures completedCount == 0 && errorCount == 0 && transaction == null && transactionsCreated == 0
      ensures |workers| == workerCount
      ensures forall i :: 0 <= i < |workers| ==>
        fresh(workers[i]) && !workers[i].started && !workers[i].finished && !workers[i].stopRequested
    {
      var created: seq<ReindexWorker> := [];
      var i := 0;
      while i < workerCount
        invariant 0 <= i <= workerCount
        invariant |created| == i
        invariant forall k :: 0 <= k < i ==> fresh(created[k]) && created[k].name == WorkerName(k)
        invariant forall k :: 0 <= k < i ==> !created[k].started && !created[k].finished && !created[k].stopRequested
      {
        var worker := new ReindexWorker(WorkerName(i));
        created := created + [worker];
        i := i + 1;
      }
      this.ids := ids;
      cursor := 0;
      this.batchSize := batchSize;
      this.failOnError := failOnError;
      workers := created;
      completedCount, errorCount := 0, 0;
      transaction := null;
      transactionsCreated := 0;
      reporterRunning := false;
    }

    /**
     * `getIds`: the next ids of the stream, at most `batchSize` of them. The
     * list is created with capacity `(int) batchSize`, which throws when that
     * narrowed value is negative, before any id is taken.
     */
    method GetIds() returns (r: Result<seq<string>, Failure>)
      requires Valid()
      modifies this`cursor
      ensures Valid()
      ensures r.Err? <==> Wrap32(batchSize) < 0
      ensures r.Err? ==> r.error == IllegalCapacity(Wrap32(batchSize)) && cursor == old(cursor)
      ensures r.Ok? ==> r.value == Batching.NextBatch(ids, old(cursor), batchSize)
      ensures r.Ok? ==> cursor == old(cursor) + |r.value|
    {
      var capacity := Wrap32(batchSize);
      if capacity < 0 {
        return Err(IllegalCapacity(capacity));
      }
      // `position` is the iterator's place in the stream while the batch is filled.
      var position := cursor;
      var counter := 0;
      var batch: seq<string> := [];
      while position < |ids| && counter < batchSize
        invariant cursor <= position <= |ids|
        invariant counter == position - cursor
        invariant |batch| == counter
        invariant batch + Batching.NextBatch(ids, position, batchSize - counter)
          == Batching.NextBatch(ids, cursor, batchSize)
        decreases |ids| - position
      {
        assert Batching.NextBatch(ids, position, batchSize - counter)
          == [ids[position]] + Batching.NextBatch(ids, position + 1, batchSize - counter - 1);
        batch := batch + [ids[position]];
        position := position + 1;
        counter := counter + 1;
      }
      cursor := position;
      return Ok(batch);
    }

    /** `updateComplete`: adds a batch's successes and errors to the counters. */
    method UpdateComplete(batchSuccessful: Int32, batchErrors: Int32)
      requires Valid()
      modifies this`completedCount, this`errorCount
      ensures Valid()
      ensures Counts() == Counters.Add(old(Counts()), Counters.Report(batchSuccessful, batchErrors))
    {
      var totals := Counters.Add(Counts(), Counters.Report(batchSuccessful, batchErrors));
      completedCount, errorCount := totals.completed, totals.errored;
    }

    method GetCompletedCount() returns (count: Int32)
      ensures count == completedCount
    {
      count := completedCount;
    }

    method GetErrorCount() returns (count: Int32)
      ensures count == errorCount
    {
      count := errorCount;
    }

    /**
     * The `updateComplete` calls the workers make while `start` waits for
     * them, in the order they happen.
     */
    method RecordReports(reports: seq<Counters.Report>)
      requires Valid()
      modifies this`completedCount, this`errorCount
      ensures Valid()
      ensures Counts() == Counters.ApplyAll(old(Counts()), reports)
    {
      for i := 0 to |reports|
        invariant Valid()
        invariant Counts() == Counters.ApplyAll(old(Counts()), reports[..i])
      {
        Counters.ApplyAllAppend(old(Counts()), reports[..i], reports[i]);
        assert reports[..i + 1] == reports[..i] + [reports[i]];
        UpdateComplete(reports[i].successful, reports[i].errors);
      }
      assert reports[..|reports|] == reports;
    }

    /** `stop`: raises every worker's stop flag and changes nothing else. */
    method Stop()
      requires Valid()
      modifies workers
      ensures Valid()
      ensures AllStopRequested()
      ensures forall i :: 0 <= i < |workers| ==>
        workers[i].started == old(workers[i].started) && workers[i].finished == old(workers[i].finished)
    {
      for i := 0 to |workers|
        invariant forall k :: 0 <= k < i ==> workers[k].stopRequested
        invariant forall k :: 0 <= k < |workers| ==>
          workers[k].started == old(workers[k].started) && workers[k].finished == old(workers[k].finished)
      {
        workers[i].StopThread();
      }
    }

    /**
     * `transaction()`: the first call creates the transaction and marks it
     * short-lived; later calls return that same transaction.
     */
    method GetTransaction() returns (tx: Transaction)
      requires Valid()
      modifies this`transaction, this`transactionsCreated
      ensures Valid()
      ensures transaction == tx && tx.shortLived
      ensures old(transaction) == null ==> fresh(tx) && tx.commits == 0 && transactionsCreated == 1
      ensures old(transaction) != null ==> tx == old(transaction) && transactionsCreated == old(transactionsCreated)
    {
      if transaction == null {
        transaction := new Transaction();
        transaction.SetShortLived(true);
        transactionsCreated := transactionsCreated + 1;
      }
      tx := transaction;
    }

    /**
     * `indexMembership`: gets the transaction, lets the reindex service index
     * membership in it, then commits it. `fault` says whether the service or
     * the commit throws.
     */
    method IndexMembership(fault: Fault) returns (failure: Option<Failure>)
      requires Valid()
      modifies this`transaction, this`transactionsCreated, transaction
      ensures Valid()
      ensures transaction != null
      ensures old(transaction) != null ==> transaction == old(transaction)
      ensures old(transaction) == null ==> fresh(transaction)
      ensures failure == (match fault
        case IndexingThrows => Some(MembershipIndexingFailed)
        case CommitThrows => Some(CommitFailed)
        case _ => None)
      ensures Commits() == old(Commits()) + (if failure.None? then 1 else 0)
    {
      var tx := GetTransaction();
      if fault == IndexingThrows {
        return Some(MembershipIndexingFailed);
      }
      if fault == CommitThrows {
        return Some(CommitFailed);
      }
      tx.Commit();
      failure := None;
    }

    /**
     * `workers.forEach(ReindexWorker::start)`: on a first run every worker
     * starts; on a later run the first worker's start throws and no other
     * worker is touched.
     */
    method StartWorkers() returns (failure: Option<Failure>)
      requires Valid()
      modifies workers
      ensures Valid()
      ensures failure.Some? <==> old(WorkersStarted())
      ensures failure.Some? ==> failure.value == IllegalThreadState
      ensures WorkersStarted()
      ensures forall i :: 0 <= i < |workers| ==>
        workers[i].finished == old(workers[i].finished) && workers[i].stopRequested == old(workers[i].stopRequested)
    {
      WorkersDistinct();
      failure := None;
      for i := 0 to |workers|
        invariant failure.None? ==> forall k :: 0 <= k < i ==> workers[k].started
        invariant failure.Some? ==> failure == Some(IllegalThreadState) && old(WorkersStarted())
        invariant old(WorkersStarted()) ==> forall k :: 0 <= k < |workers| ==> workers[k].started
        invariant !old(WorkersStarted()) ==> failure.None?
        invariant old(WorkersStarted()) && i > 0 ==> failure.Some?
        invariant forall k :: 0 <= k < |workers| ==>
          workers[k].finished == old(workers[k].finished) && workers[k].stopRequested == old(workers[k].stopRequested)
        invariant forall k :: i <= k < |workers| ==> workers[k].started == old(workers[k].started)
      {
        if failure.None? {
          var ok := workers[i].Start();
          if !ok {
            failure := Some(IllegalThreadState);
          }
        }
      }
    }

    /** `for (worker : workers) worker.join()`: returns once every worker has finished. */
    method JoinWorkers()
      requires Valid()
      modifies workers
      ensures Valid()
      ensures forall i :: 0 <= i < |workers| ==> workers[i].finished
      ensures forall i :: 0 <= i < |workers| ==>
        workers[i].started == old(workers[i].started) && workers[i].stopRequested == old(workers[i].stopRequested)
    {
      WorkersDistinct();
      for i := 0 to |workers|
        invariant forall k :: 0 <= k < i ==> workers[k].finished
        invariant forall k :: 0 <= k < |workers| ==>
          workers[k].started == old(workers[k].started) && workers[k].stopRequested == old(workers[k].stopRequested)
      {
        workers[i].Join();
      }
    }

    /**
     * The part of `start` after the workers have started: their reports are
     * counted; unless the wait for them is interrupted, they drain the id
     * stream through `getIds`, the coordinator waits for every one of them
     * and then indexes membership when errors do not block it.
     */
    method AwaitAndFinalize(reports: seq<Counters.Report>, fault: Fault) returns (failure: Option<Failure>)
      requires Valid()
      modifies this`cursor, this`completedCount, this`errorCount, this`transaction, this`transactionsCreated
      modifies workers, transaction
      ensures Valid()
      ensures Counts() == Counters.ApplyAll(old(Counts()), reports)
      ensures old(transaction) == null && transaction != null ==> fresh(transaction)
      ensures fault == JoinInterrupted ==>
        && failure == Some(Interrupted)
        && transaction == old(transaction) && Commits() == old(Commits())
      ensures fault != JoinInterrupted ==>
        && (Wrap32(batchSize) >= 0 && batchSize >= 1 ==> cursor == |ids|)
        && (Wrap32(batchSize) < 0 || batchSize < 1 ==> cursor == old(cursor))
      ensures fault != JoinInterrupted ==>
        && (forall i :: 0 <= i < |workers| ==> workers[i].finished)
        && (FinalizationAllowed(failOnError, errorCount) ==>
              && transaction != null
              && (old(transaction) != null ==> transaction == old(transaction))
              && (failure.None? <==> fault == NoFault)
              && (fault == IndexingThrows ==> failure == Some(MembershipIndexingFailed))
              && (fault == CommitThrows ==> failure == Some(CommitFailed))
              && Commits() == old(Commits()) + (if failure.None? then 1 else 0))
        && (!FinalizationAllowed(failOnError, errorCount) ==>
              && failure.None?
              && transaction == old(transaction) && Commits() == old(Commits()))
      ensures forall i :: 0 <= i < |workers| ==>
        workers[i].started == old(workers[i].started) && workers[i].stopRequested == old(workers[i].stopRequested)
    {
      RecordReports(reports);
      if fault == JoinInterrupted {
        failure := Some(Interrupted);
      } else {
        var _ := PullUntilEmpty(this);
        JoinWorkers();
        if FinalizationAllowed(failOnError, errorCount) {
          failure := IndexMembership(fault);
        } else {
          failure := None;
        }
      }
    }

    /**
     * `start`: starts the reporter and the workers, waits for every worker,
     * then indexes membership if errors do not block it. An exception from
     * any of these steps stops all workers and is rethrown. The reporter is
     * interrupted on every path. `reports` are the `updateComplete` calls the
     * workers make before they finish; `fault` says which collaborator, if
     * any, throws.
     */
    method Start(reports: seq<Counters.Report>, fault: Fault) returns (r: Result<RunOutcome, Failure>)
      requires Valid()
      modifies this, workers, transaction
      ensures Valid()
      ensures !reporterRunning
      ensures old(transaction) == null && transaction != null ==> fresh(transaction)
      // Threads never become unstarted: every later start throws again.
      ensures WorkersStarted()
      // Started before: the first worker's start throws, nothing runs.
      ensures old(WorkersStarted()) ==>
        && r == Err(IllegalThreadState)
        && cursor == old(cursor)
        && (forall i :: 0 <= i < |workers| ==> workers[i].finished == old(workers[i].finished))
        && Counts() == old(Counts())
        && transaction == old(transaction) && Commits() == old(Commits())
      // A first start: every worker starts and their reports are counted.
      ensures !old(WorkersStarted()) ==>
        Counts() == Counters.ApplyAll(old(Counts()), reports)
      ensures !old(WorkersStarted()) && fault == JoinInterrupted ==>
        && r == Err(Interrupted)
        && transaction == old(transaction) && Commits() == old(Commits())
      // Otherwise the workers drain the id stream (a batch size that is not
      // positive, or whose `int` narrowing is negative, makes them take nothing).
      ensures !old(WorkersStarted()) && fault != JoinInterrupted ==>
        && (Wrap32(batchSize) >= 0 && batchSize >= 1 ==> cursor == |ids|)
        && (Wrap32(batchSize) < 0 || batchSize < 1 ==> cursor == old(cursor))
      ensures !old(WorkersStarted()) && fault != JoinInterrupted ==>
        && (forall i :: 0 <= i < |workers| ==> workers[i].finished)
        && (FinalizationAllowed(failOnError, errorCount) ==>
              && transaction != null
              && (old(transaction) != null ==> transaction == old(transaction))
              && (r.Ok? <==> fault == NoFault)
              && (r.Ok? ==> r.value == Finalized)
              && (fault == IndexingThrows ==> r == Err(MembershipIndexingFailed))
              && (fault == CommitThrows ==> r == Err(CommitFailed))
              && Commits() == old(Commits()) + (if r.Ok? then 1 else 0))
        && (!FinalizationAllowed(failOnError, errorCount) ==>
              && r == Ok(Incomplete)
              && transaction == old(transaction) && Commits() == old(Commits()))
      // Workers are stopped exactly when an exception escapes.
      ensures r.Err? ==> AllStopRequested()
      ensures r.Ok? ==> forall i :: 0 <= i < |workers| ==> workers[i].stopRequested == old(workers[i].stopRequested)
    {
      reporterRunning := true;
      var failure := StartWorkers();
      if failure.None? {
        failure := AwaitAndFinalize(reports, fault);
      }
      if failure.Some? {
        Stop();
        r := Err(failure.value);
      } else if FinalizationAllowed(failOnError, errorCount) {
        r := Ok(Finalized);
      } else {
        r := Ok(Incomplete);
      }
      reporterRunning := false;
    }
  }

  /** A new coordinator, or the constructor's IllegalStateException when `workerCount < 1`. */
  method NewReindexManager(ids: seq<string>, batchSize: Int64, workerCount: Int32, failOnError: bool)
    returns (r: Result<ReindexManager, Failure>)
    ensures r.Err? <==> workerCount < 1
    ensures r.Err? ==> r.error == IllegalState(workerCount)
    ensures r.Ok? ==>
      && fresh(r.value) && r.value.Valid()
      && r.value.ids == ids && r.value.cursor == 0
      && r.value.batchSize == batchSize && r.value.failOnError == failOnError
      && r.value.completedCount == 0 && r.value.errorCount == 0 && r.value.transaction == null
      && |r.value.workers| == workerCount
      && (forall i :: 0 <= i < |r.value.workers| ==>
            && fresh(r.value.workers[i]) && r.value.workers[i].name == WorkerName(i)
            && !r.value.workers[i].started && !r.value.workers[i].finished && !r.value.workers[i].stopRequested)
  {
    if workerCount < 1 {
      return Err(IllegalState(workerCount));
    }
    var manager := new ReindexManager(ids, batchSize, workerCount, failOnError);
    return Ok(manager);
  }

  /**
   * A run with one worker, no reports and no exception finalizes; every
   * later start of the same coordinator throws `IllegalThreadStateException`,
   * so membership is committed once in all.
   */
  method StartThrice(ids: seq<string>, batchSize: Int64, failOnError: bool)
    returns (first: Result<RunOutcome, Failure>, second: Result<RunOutcome, Failure>, third: Result<RunOutcome, Failure>, commits: nat)
    ensures first == Ok(Finalized)
    ensures second == Err(IllegalThreadState) && third == Err(IllegalThreadState)
    ensures commits == 1
  {
    var manager := new ReindexManager(ids, batchSize, 1, failOnError);
    first := manager.Start([], NoFault);
    second := manager.Start([], NoFault);
    third := manager.Start([], NoFault);
    commits := manager.transaction.commits;
  }

  /**
   * Calls `getIds` until it returns an empty batch, as the workers together
   * do. With a positive batch size the batches, in call order, are exactly
   * the rest of the stream cut into consecutive batches of at most
   * `batchSize` ids.
   */
  method PullUntilEmpty(manager: ReindexManager) returns (r: Result<seq<seq<string>>, Failure>)
    requires manager.Valid()
    modifies manager`cursor
    ensures manager.Valid()
    ensures r.Err? <==> Wrap32(manager.batchSize) < 0
    ensures r.Err? ==> manager.cursor == old(manager.cursor)
    ensures r.Ok? && manager.batchSize >= 1 ==>
      && r.value == Batching.Batches(manager.ids, old(manager.cursor), manager.batchSize)
      && Batching.Flatten(r.value) == manager.ids[old(manager.cursor)..]
      && manager.cursor == |manager.ids|
    ensures r.Ok? && manager.batchSize < 1 ==> r.value == [] && manager.cursor == old(manager.cursor)
  {
    var next := manager.GetIds();
    if next.Err? {
      return Err(next.error);
    }
    var batches: seq<seq<string>> := [];
    ghost var start: nat := old(manager.cursor);
    while next.value != []
      invariant manager.Valid()
      invariant next.Ok?
      invariant start <= |manager.ids|
      invariant next.value == Batching.NextBatch(manager.ids, start, manager.batchSize)
      invariant manager.cursor == start + |next.value|
      invariant manager.batchSize >= 1 ==>
        batches + Batching.Batches(manager.ids, start, manager.batchSize)
          == Batching.Batches(manager.ids, old(manager.cursor), manager.batchSize)
      invariant manager.batchSize < 1 ==> batches == [] && start == old(manager.cursor)
      decreases |manager.ids| - start
    {
      batches := batches + [next.value];
      start := manager.cursor;
      next := manager.GetIds();
    }
    if manager.batchSize >= 1 {
      Batching.BatchesPartition(manager.ids, old(manager.cursor), manager.batchSize);
    }
    return Ok(batches);
  }
}
