# Reindex coordinator and in-memory resource locks

This project is a Dafny model of two parts of the Fedora repository
(fcrepo) persistence layer.

- **`ReindexManager`** rebuilds the index from the OCFL storage. It hands
  out the stream of OCFL object ids in batches to a fixed pool of worker
  threads and keeps two progress counters, completed and errored, as 32-bit
  atomic integers. It starts and joins the workers. It then indexes
  membership in one short-lived transaction, unless the fail-on-error policy
  and a non-zero error count block it. If anything throws, it stops every
  worker. Its progress reporter formats the elapsed time as
  "H hours, M mins, S secs".
- **`InMemoryResourceLockManager`** is the lock table that transactions use
  to claim resources, modelled as its tests pin it down. `acquire` succeeds
  when the resource is free or already held by the same transaction, and
  otherwise throws `ConcurrentUpdateException`. `releaseAll` frees every lock
  a transaction holds.

Modules:

- `Wrappers`: `Option` and `Result`.
- `JavaInt`: Java `int`/`long` ranges and two's-complement wrap-around.
- `Text`: decimal formatting of naturals (`%d`) and reading it back.
- `Duration`: `getDurationMessage`, its parser, and the corrected form.
- `Batching`: the batches `getIds` hands out.
- `Counters`: the progress counters under `updateComplete`.
- `Reindex`: the coordinator class, its workers and its transaction.
- `ResourceLocks`: the lock table.

Modelling choices:

- Threads are modelled by their observable events. A worker has a started
  flag, a finished flag (what `join` waits for) and a stop flag.
- The updates the workers report while they run are a parameter of `Start`.
- Which collaborator throws, if any, is a parameter of `Start` and
  `IndexMembership`: the join can be interrupted, membership indexing can
  throw, and the commit can throw.
- The id stream is a sequence with a cursor.
- The Java constructor throws when there are fewer than one worker thread.
  It is modelled by a constructor that requires at least one worker, plus a
  factory, `NewReindexManager`, that returns the exception otherwise.

Two behaviours of the code are easy to miss:

- `getIds` throws `IllegalArgumentException` from
  `new ArrayList<>((int) batchSize)` exactly when the batch size narrowed to
  32 bits is negative. That covers every size in [-2^31, -1] and positive
  sizes such as 2^31. A negative size whose low 32 bits are non-negative,
  such as -2^32, does not throw: it returns an empty batch.
- The counters are `AtomicInteger`s. They wrap around at 32 bits, so a
  counter can go down.

## Model

| member | source | states |
|---|---|---|
| JavaInt.Wrap32 | fcrepo-persistence-ocfl/src/main/java/org/fcrepo/persistence/ocfl/impl/ReindexManager.java:148-151 | a 32-bit `int` result congruent to the input modulo 2^32, and equal to it when it is in range |
| JavaInt.Wrap32Add | fcrepo-persistence-ocfl/src/main/java/org/fcrepo/persistence/ocfl/impl/ReindexManager.java:148-151 | adding to an already wrapped value then wrapping is the same as wrapping the exact sum |
| Text.NatToString | fcrepo-persistence-ocfl/src/main/java/org/fcrepo/persistence/ocfl/impl/ReindexManager.java:209-214 | `%d` of a natural is a non-empty string of digits, with no leading zero unless the value is 0 |
| Text.ParseNatToString | fcrepo-persistence-ocfl/src/main/java/org/fcrepo/persistence/ocfl/impl/ReindexManager.java:209-214 | reading the digits of `%d` back gives the number |
| Text.NatToStringInjective | fcrepo-persistence-ocfl/src/main/java/org/fcrepo/persistence/ocfl/impl/ReindexManager.java:209-214 | two naturals format the same exactly when they are equal |
| Text.DigitRunOfPrefix | fcrepo-persistence-ocfl/src/main/java/org/fcrepo/persistence/ocfl/impl/ReindexManager.java:209-214 | the digit run at the head of a formatted number followed by a non-digit is exactly the number's digits |
| Text.ReadNatToString | fcrepo-persistence-ocfl/src/main/java/org/fcrepo/persistence/ocfl/impl/ReindexManager.java:209-214 | reading a number from `%d` followed by a non-digit gives the number and the rest of the text |
| Duration.ParseRender | fcrepo-persistence-ocfl/src/main/java/org/fcrepo/persistence/ocfl/impl/ReindexManager.java:209-214 | any hours/mins/secs message in this format reads back as the same fields |
| Duration.RenderInjective | fcrepo-persistence-ocfl/src/main/java/org/fcrepo/persistence/ocfl/impl/ReindexManager.java:209-214 | two field sets give the same message exactly when they are equal |
| Duration.DurationMessage | fcrepo-persistence-ocfl/src/main/java/org/fcrepo/persistence/ocfl/impl/ReindexManager.java:208-217 | the message built as `getDurationMessage` builds it always ends in "<s%60> secs" |
| Duration.DurationMessageRendersFields | fcrepo-persistence-ocfl/src/main/java/org/fcrepo/persistence/ocfl/impl/ReindexManager.java:208-217 | the incrementally built message is the rendering of the fields the two comparisons select |
| Duration.DurationMessageShape | fcrepo-persistence-ocfl/src/main/java/org/fcrepo/persistence/ocfl/impl/ReindexManager.java:208-217 | the message reads back as seconds "s%60", a minutes field "(s/60)%60" exactly when s > 60, and an hours field "s/3600" exactly when s > 3600 |
| Duration.SplitSeconds | fcrepo-persistence-ocfl/src/main/java/org/fcrepo/persistence/ocfl/impl/ReindexManager.java:209-214 | hours, minutes of the hour and seconds of the minute add up to the total seconds |
| Duration.MessageFieldsReportedSeconds | fcrepo-persistence-ocfl/src/main/java/org/fcrepo/persistence/ocfl/impl/ReindexManager.java:208-217 | the fields as written add up to the elapsed seconds exactly when they are not 60 or 3600 |
| Duration.DurationMessageDropsWholeUnit | fcrepo-persistence-ocfl/src/main/java/org/fcrepo/persistence/ocfl/impl/ReindexManager.java:208-217 | the message reads back as the elapsed time exactly when it is not 60 or 3600 seconds |
| Duration.DurationMessageAtWholeUnits | fcrepo-persistence-ocfl/src/main/java/org/fcrepo/persistence/ocfl/impl/ReindexManager.java:208-217 | one minute reads "0 secs" and one hour reads "0 mins, 0 secs" |
| Duration.CorrectedFieldsReportedSeconds | fcrepo-persistence-ocfl/src/main/java/org/fcrepo/persistence/ocfl/impl/ReindexManager.java:208-217 | with `>=` comparisons the fields always add up to the elapsed seconds |
| Duration.CorrectedDurationMessageExact | fcrepo-persistence-ocfl/src/main/java/org/fcrepo/persistence/ocfl/impl/ReindexManager.java:208-217 | the corrected message always reads back as exactly the elapsed seconds, and distinct durations give distinct messages |
| Batching.NextBatch | fcrepo-persistence-ocfl/src/main/java/org/fcrepo/persistence/ocfl/impl/ReindexManager.java:133-141 | a batch never runs past the end of the id stream |
| Batching.NextBatchContents | fcrepo-persistence-ocfl/src/main/java/org/fcrepo/persistence/ocfl/impl/ReindexManager.java:133-141 | a batch is the next contiguous run of ids, at most `batchSize` long, short only when the stream is exhausted, and empty exactly when the size is not positive or the stream is exhausted |
| Batching.BatchesPartition | fcrepo-persistence-ocfl/src/main/java/org/fcrepo/persistence/ocfl/impl/ReindexManager.java:133-141 | repeated calls until an empty batch hand out every remaining id exactly once and in order, in non-empty batches of at most `batchSize`, all full but the last |
| Counters.Add | fcrepo-persistence-ocfl/src/main/java/org/fcrepo/persistence/ocfl/impl/ReindexManager.java:148-151 | one `updateComplete` call: each counter changes by its amount modulo 2^32, and by exactly that amount when the sum stays in the `int` range |
| Counters.ApplyAll | fcrepo-persistence-ocfl/src/main/java/org/fcrepo/persistence/ocfl/impl/ReindexManager.java:148-151 | the counters after a sequence of `updateComplete` calls, in order; `Counters.ApplyAllIsSum` states what they are |
| Counters.ApplyAllAppend | fcrepo-persistence-ocfl/src/main/java/org/fcrepo/persistence/ocfl/impl/ReindexManager.java:148-151 | applying one more report after a sequence is applying the extended sequence |
| Counters.ApplyAllIsSum | fcrepo-persistence-ocfl/src/main/java/org/fcrepo/persistence/ocfl/impl/ReindexManager.java:148-151 | after any reports each counter is the start value plus the sum of its reported amounts, wrapped to 32 bits |
| Counters.SumsOfPermutation | fcrepo-persistence-ocfl/src/main/java/org/fcrepo/persistence/ocfl/impl/ReindexManager.java:148-151 | reordering reports does not change their sums |
| Counters.ApplyAllOrderIndependent | fcrepo-persistence-ocfl/src/main/java/org/fcrepo/persistence/ocfl/impl/ReindexManager.java:148-151 | the counters do not depend on the order in which workers report |
| Counters.ApplyAllExact | fcrepo-persistence-ocfl/src/main/java/org/fcrepo/persistence/ocfl/impl/ReindexManager.java:148-151 | when no sum leaves the `int` range, each counter is exactly the start value plus the reported total |
| Reindex.WorkerName | fcrepo-persistence-ocfl/src/main/java/org/fcrepo/persistence/ocfl/impl/ReindexManager.java:91 | the `i`-th worker's name, "ReindexWorker-" then `i` in decimal; `Reindex.WorkerNameReadsBack` and `Reindex.WorkerNamesDistinct` state its properties |
| Reindex.WorkerNameReadsBack | fcrepo-persistence-ocfl/src/main/java/org/fcrepo/persistence/ocfl/impl/ReindexManager.java:91 | a worker's name is "ReindexWorker-" followed by digits that read back as its index |
| Reindex.FinalizationAllowed | fcrepo-persistence-ocfl/src/main/java/org/fcrepo/persistence/ocfl/impl/ReindexManager.java:107 | the condition under which `start` indexes membership: fail-on-error is off, or the error counter is zero |
| Reindex.FinalizationAfterReports | fcrepo-persistence-ocfl/src/main/java/org/fcrepo/persistence/ocfl/impl/ReindexManager.java:107 | after the workers' reports, finalization is allowed exactly when fail-on-error is off or the reported errors plus the counter's start are a multiple of 2^32; without overflow, exactly when no error was reported |
| Reindex.WorkerNamesDistinct | fcrepo-persistence-ocfl/src/main/java/org/fcrepo/persistence/ocfl/impl/ReindexManager.java:90-93 | worker names "ReindexWorker-i" are equal exactly when their indexes are |
| Reindex.ReindexWorker.Start | fcrepo-persistence-ocfl/src/main/java/org/fcrepo/persistence/ocfl/impl/ReindexManager.java:103 | starting a thread succeeds exactly when it was not started before; a second start throws |
| Reindex.ReindexManager.constructor | fcrepo-persistence-ocfl/src/main/java/org/fcrepo/persistence/ocfl/impl/ReindexManager.java:67-94 | zero counters, no transaction, cursor at the start, and `workerCount` fresh, unstarted workers named "ReindexWorker-0" onwards |
| Reindex.NewReindexManager | fcrepo-persistence-ocfl/src/main/java/org/fcrepo/persistence/ocfl/impl/ReindexManager.java:83-93 | fails with `IllegalStateException(workerCount)` exactly when `workerCount < 1`; otherwise a fresh coordinator with zero counters, no transaction, the cursor at the start, and `workerCount` fresh workers, not started, not finished and not stopped, named "ReindexWorker-0" onwards |
| Reindex.ReindexManager.GetIds | fcrepo-persistence-ocfl/src/main/java/org/fcrepo/persistence/ocfl/impl/ReindexManager.java:133-141 | throws `IllegalArgumentException` exactly when `(int) batchSize` is negative, consuming nothing; otherwise returns the next batch of the stream and advances past it |
| Reindex.PullUntilEmpty | fcrepo-persistence-ocfl/src/main/java/org/fcrepo/persistence/ocfl/impl/ReindexManager.java:133-141 | calling `getIds` until it returns an empty list yields the batches that partition the rest of the stream |
| Reindex.ReindexManager.UpdateComplete | fcrepo-persistence-ocfl/src/main/java/org/fcrepo/persistence/ocfl/impl/ReindexManager.java:148-151 | each counter is increased by its amount with 32-bit wrap-around |
| Reindex.ReindexManager.GetCompletedCount | fcrepo-persistence-ocfl/src/main/java/org/fcrepo/persistence/ocfl/impl/ReindexManager.java:156-158 | returns the completed counter |
| Reindex.ReindexManager.GetErrorCount | fcrepo-persistence-ocfl/src/main/java/org/fcrepo/persistence/ocfl/impl/ReindexManager.java:163-165 | returns the error counter |
| Reindex.ReindexManager.RecordReports | fcrepo-persistence-ocfl/src/main/java/org/fcrepo/persistence/ocfl/impl/ReindexManager.java:148-151 | the workers' `updateComplete` calls, one after another, leave the counters at their fold over the reports |
| Reindex.ReindexManager.Stop | fcrepo-persistence-ocfl/src/main/java/org/fcrepo/persistence/ocfl/impl/ReindexManager.java:124-127 | every worker is asked to stop; nothing else about them changes |
| Reindex.ReindexManager.GetTransaction | fcrepo-persistence-ocfl/src/main/java/org/fcrepo/persistence/ocfl/impl/ReindexManager.java:219-225 | the first call creates one short-lived transaction; later calls return the same one |
| Reindex.ReindexManager.IndexMembership | fcrepo-persistence-ocfl/src/main/java/org/fcrepo/persistence/ocfl/impl/ReindexManager.java:170-176 | indexes with the coordinator's transaction and commits it once, unless indexing or the commit throws |
| Reindex.ReindexManager.StartWorkers | fcrepo-persistence-ocfl/src/main/java/org/fcrepo/persistence/ocfl/impl/ReindexManager.java:103 | starts every worker; if they were started before, the first start throws `IllegalThreadStateException` |
| Reindex.ReindexManager.JoinWorkers | fcrepo-persistence-ocfl/src/main/java/org/fcrepo/persistence/ocfl/impl/ReindexManager.java:104-106 | returns once every worker has finished |
| Reindex.ReindexManager.AwaitAndFinalize | fcrepo-persistence-ocfl/src/main/java/org/fcrepo/persistence/ocfl/impl/ReindexManager.java:104-111 | counts the reports; unless the wait is interrupted, the workers drain the id stream, every worker finishes, and membership is indexed exactly when fail-on-error is off or the error counter is zero, returning the indexing or commit exception when one is thrown; a transaction it creates is a new one |
| Reindex.ReindexManager.Start | fcrepo-persistence-ocfl/src/main/java/org/fcrepo/persistence/ocfl/impl/ReindexManager.java:100-119 | the workers stay started after every run; a second start throws `IllegalThreadStateException` without consuming, counting or committing anything and leaves the workers' finished flags as they were; a first start counts every report; an interrupted join rethrows `InterruptedException`; otherwise the workers drain the id stream and, when errors do not block it, membership is committed once, or the indexing or commit exception is rethrown as it was caught; a transaction created during the run is a new one; every worker is stopped exactly when an exception escapes; the reporter is stopped on every path |
| Reindex.StartThrice | fcrepo-persistence-ocfl/src/main/java/org/fcrepo/persistence/ocfl/impl/ReindexManager.java:100-119 | a one-worker run with no reports and no exception finalizes; the second and third starts of the same coordinator throw `IllegalThreadStateException`, and membership is committed once in all |
| ResourceLocks.AcquireStep | fcrepo-kernel-impl/src/test/java/org/fcrepo/kernel/impl/lock/InMemoryResourceLockManagerTest.java:57-81 | `acquire` succeeds exactly when the resource is free or held by the same transaction, which then holds it; otherwise it reports the holder and changes nothing |
| ResourceLocks.ReleaseAllStep | fcrepo-kernel-impl/src/test/java/org/fcrepo/kernel/impl/lock/InMemoryResourceLockManagerTest.java:76-81 | `releaseAll` frees exactly the transaction's locks and keeps every other entry |
| ResourceLocks.ReleaseAllIdempotent | fcrepo-kernel-impl/src/test/java/org/fcrepo/kernel/impl/lock/InMemoryResourceLockManagerTest.java:138-144 | releasing twice is releasing once |
| ResourceLocks.AcquireAfterRelease | fcrepo-kernel-impl/src/test/java/org/fcrepo/kernel/impl/lock/InMemoryResourceLockManagerTest.java:76-81 | after the holder releases, another transaction can take the lock |
| ResourceLocks.HeldUntilReleased | fcrepo-kernel-impl/src/test/java/org/fcrepo/kernel/impl/lock/InMemoryResourceLockManagerTest.java:68-74 | a lock stays with its holder through any calls without its `releaseAll`, and every other transaction's `acquire` of it fails naming the holder |
| ResourceLocks.InMemoryResourceLockManager.constructor | fcrepo-kernel-impl/src/test/java/org/fcrepo/kernel/impl/lock/InMemoryResourceLockManagerTest.java:49-55 | a new manager holds no locks |
| ResourceLocks.InMemoryResourceLockManager.Acquire | fcrepo-kernel-impl/src/test/java/org/fcrepo/kernel/impl/lock/InMemoryResourceLockManagerTest.java:57-74 | the manager's table changes as `AcquireStep` says |
| ResourceLocks.InMemoryResourceLockManager.ReleaseAll | fcrepo-kernel-impl/src/test/java/org/fcrepo/kernel/impl/lock/InMemoryResourceLockManagerTest.java:76-81 | the manager's table changes as `ReleaseAllStep` says |
| ResourceLocks.LockWhenNotLocked | fcrepo-kernel-impl/src/test/java/org/fcrepo/kernel/impl/lock/InMemoryResourceLockManagerTest.java:57-60 | on a new manager, `acquire` succeeds and the transaction holds the resource |
| ResourceLocks.ReacquireHeldLock | fcrepo-kernel-impl/src/test/java/org/fcrepo/kernel/impl/lock/InMemoryResourceLockManagerTest.java:62-66 | the same transaction acquires twice; both succeed and the second leaves the table unchanged |
| ResourceLocks.FailWhenHeldByAnotherTx | fcrepo-kernel-impl/src/test/java/org/fcrepo/kernel/impl/lock/InMemoryResourceLockManagerTest.java:68-74 | a second transaction's `acquire` fails with `ConcurrentUpdateException` naming the first |
| ResourceLocks.AcquireAfterReleasedByAnotherTx | fcrepo-kernel-impl/src/test/java/org/fcrepo/kernel/impl/lock/InMemoryResourceLockManagerTest.java:76-81 | after the first transaction releases, once or twice, the second acquires |
| ResourceLocks.SameTxRace | fcrepo-kernel-impl/src/test/java/org/fcrepo/kernel/impl/lock/InMemoryResourceLockManagerTest.java:83-103 | two acquires by the same transaction, in either order, both succeed |
| ResourceLocks.DifferentTxRace | fcrepo-kernel-impl/src/test/java/org/fcrepo/kernel/impl/lock/InMemoryResourceLockManagerTest.java:105-136 | of two transactions racing for one resource, exactly one succeeds, and it is the one that runs first |

## Left out

- The worker threads and the reporter thread. Their scheduling, the `Phaser` in the lock tests, and `synchronized` on `getIds` are not modelled. Concurrent calls are modelled as one serial order, chosen by a parameter.
- The reporter's loop (ReindexManager.java:185-206) is left out: its sleep, clock and log line. Only the message formatting (`getDurationMessage`) and the fact that the reporter stops on every path of `start` are modelled. The rate on line 197 divides by the elapsed seconds and would throw `ArithmeticException` at zero seconds. It runs on the reporter thread and is not modelled.
- The duration is a natural number of seconds. Negative `Duration`s and the nanosecond part are not modelled.
- Logging, `shutdown` (closing the stream), and the internals of `ReindexService`, `TransactionManager`, `DbTransactionExecutor` and `ReindexWorker` are left out. These collaborators are not part of this model. Their effects are parameters: the reports a run's workers make, and which call throws.
- Reindex.ReindexManager.Start: an interrupted join is modelled as interrupting before any worker is joined. Workers joined before the interrupt are not tracked. Failures of `txManager.create()` and `setShortLived` are not modelled.
- Reindex.ReindexManager.GetIds: the `int counter` is modelled as unbounded. A batch of 2^31 or more ids would overflow it in Java, which this model does not capture.
- Reindex.ReindexManager.Start: `ReindexWorker` is not part of this model. Its workers are taken to call `getIds` until it returns an empty batch whenever the wait for them is not interrupted. A `stop()` from another thread while `start` waits would make them quit early and leave ids unread; that case is not modelled.
- Reindex.ReindexManager.Start: when the wait for the workers is interrupted, how many ids they pulled before they were stopped is not stated. When the workers drain the stream, the reports they make are a parameter and are not tied to the batches they pulled.
- Reindex.ReindexManager.GetIds: `new ArrayList<>((int) batchSize)` allocates its array at once, so a huge non-negative capacity such as `Integer.MAX_VALUE` can throw `OutOfMemoryError`. Memory is not modelled, and such a call returns its batch here.
- Reindex.ReindexWorker.Start: `ReindexWorker` is not part of this model. Its `start` is taken to be `Thread.start`, so a second start throws `IllegalThreadStateException`. What a worker does when its `getIds` call throws is not modelled either.
- Text.NatToString: `String.format` uses the default locale, and `%d` prints that locale's digits (for example Arabic-Indic digits). The model always writes ASCII digits, as in a locale such as `en` or `ROOT`.
- Reindex.ReindexWorker holds a reference back to the coordinator. That reference is not modelled.
- The `InMemoryResourceLockManager` implementation is not part of this model. The lock table follows its tests. Internal details of the implementation (its maps and their synchronisation) are not modelled.

## Findings

| source | as written | input that shows it | evidently intended | confidence | as-written member | corrected member |
|---|---|---|---|---|---|---|
| fcrepo-persistence-ocfl/src/main/java/org/fcrepo/persistence/ocfl/impl/ReindexManager.java:210-214 | the minutes and hours fields are added only when the elapsed seconds are `> 60` and `> 3600` | exactly 60 s gives "0 secs"; exactly 3600 s gives "0 mins, 0 secs" | `>= 60` and `>= 3600`, so the message always states the elapsed time | not executed | Duration.DurationMessageDropsWholeUnit | Duration.CorrectedDurationMessageExact |
