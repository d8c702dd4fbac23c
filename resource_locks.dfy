/**
 * The in-memory resource lock table (`InMemoryResourceLockManager`) as its
 * tests pin it down: a map from each locked resource to the transaction that
 * holds it. A resource absent from the map is free.
 */
module ResourceLocks {

  type TxId = string
  type ResourceId = string

  type LockTable = map<ResourceId, TxId>

  /** What `acquire` does: return normally, or throw `ConcurrentUpdateException` naming the holder. */
  datatype AcquireOutcome = Acquired | ConcurrentUpdate(holder: TxId)

  /**
   * `acquire(tx, r)` on the table `locks`: the outcome and the table after it.
   * It succeeds exactly when `r` is free or already held by `tx`, and then
   * `tx` holds `r` and nothing else changes (re-acquiring changes nothing at
   * all); otherwise it reports the other holder and changes nothing.
   */
  function AcquireStep(locks: LockTable, tx: TxId, r: ResourceId): (result: (AcquireOutcome, LockTable))
    ensures result.0 == Acquired <==> r !in locks || locks[r] == tx
    ensures result.0 == Acquired ==> result.1 == locks[r := tx] && result.1[r] == tx
    ensures r in locks && locks[r] == tx ==> result.1 == locks
    ensures result.0 != Acquired ==> result.0 == ConcurrentUpdate(locks[r]) && locks[r] != tx && result.1 == locks
  {
    if r in locks && locks[r] != tx then (ConcurrentUpdate(locks[r]), locks)
    else (Acquired, locks[r := tx])
  }

  /**
   * `releaseAll(tx)` on the table `locks`: every resource `tx` holds becomes
   * free and every other entry stays as it was.
   */
  function ReleaseAllStep(locks: LockTable, tx: TxId): (released: LockTable)
    ensures forall r :: r in released <==> r in locks && locks[r] != tx
    ensures forall r :: r in released ==> released[r] == locks[r]
  {
    map r | r in locks && locks[r] != tx :: locks[r]
  }

  /** Releasing twice is the same as releasing once. */
  lemma ReleaseAllIdempotent(locks: LockTable, tx: TxId)
    ensures ReleaseAllStep(ReleaseAllStep(locks, tx), tx) == ReleaseAllStep(locks, tx)
  {
  }

  /** Once `a` has released everything, another transaction can take what `a` held. */
  lemma AcquireAfterRelease(locks: LockTable, a: TxId, b: TxId, r: ResourceId)
    requires r in locks && locks[r] == a
    ensures AcquireStep(ReleaseAllStep(locks, a), b, r).0 == Acquired
  {
  }

  /** A call on the lock manager. */
  datatype LockCall = AcquireCall(tx: TxId, r: ResourceId) | ReleaseAllCall(tx: TxId)

  /** The table after the calls, made one after another. */
  function Run(locks: LockTable, calls: seq<LockCall>): LockTable
    decreases |calls|
  {
    if calls == [] then locks
    else
      var before := Run(locks, calls[..|calls| - 1]);
      match calls[|calls| - 1]
      case AcquireCall(tx, r) => AcquireStep(before, tx, r).1
      case ReleaseAllCall(tx) => ReleaseAllStep(before, tx)
  }

  /**
   * A lock stays with its holder until the holder releases: through any
   * calls that include no `releaseAll(a)`, a resource held by `a` is still
   * held by `a`, and every `acquire` of it by another transaction along the
   * way fails naming `a`.
   */
  lemma {:induction false} HeldUntilReleased(locks: LockTable, calls: seq<LockCall>, a: TxId, r: ResourceId)
    requires r in locks && locks[r] == a
    requires forall i :: 0 <= i < |calls| ==> calls[i] != ReleaseAllCall(a)
    ensures r in Run(locks, calls) && Run(locks, calls)[r] == a
    ensures forall i :: 0 <= i < |calls| && calls[i].AcquireCall? && calls[i].r == r && calls[i].tx != a ==>
      AcquireStep(Run(locks, calls[..i]), calls[i].tx, r).0 == ConcurrentUpdate(a)
    decreases |calls|
  {
    if calls != [] {
      var prefix := calls[..|calls| - 1];
      HeldUntilReleased(locks, prefix, a, r);
      forall i | 0 <= i < |calls| && calls[i].AcquireCall? && calls[i].r == r && calls[i].tx != a
        ensures AcquireStep(Run(locks, calls[..i]), calls[i].tx, r).0 == ConcurrentUpdate(a)
      {
        if i < |calls| - 1 {
          assert calls[..i] == prefix[..i];
        } else {
          assert calls[..i] == prefix;
        }
      }
    }
  }

  /** The lock manager: its one piece of state is the lock table, changed in place. */
  class InMemoryResourceLockManager {

    var locks: LockTable

    /** A new manager holds no locks. */
    constructor ()
      ensures locks == map[]
    {
      locks := map[];
    }

    method Acquire(tx: TxId, r: ResourceId) returns (outcome: AcquireOutcome)
      modifies this
      ensures (outcome, locks) == AcquireStep(old(locks), tx, r)
    {
      var step := AcquireStep(locks, tx, r);
      outcome, locks := step.0, step.1;
    }

    method ReleaseAll(tx: TxId)
      modifies this
      ensures locks == ReleaseAllStep(old(locks), tx)
    {
      locks := ReleaseAllStep(locks, tx);
    }
  }

  // The test scenarios, each on a fresh manager.

  /** shouldLockResourceWhenNotAlreadyLocked: the first acquire succeeds and records the holder. */
  method LockWhenNotLocked(tx: TxId, r: ResourceId) returns (outcome: AcquireOutcome, holder: TxId)
    ensures outcome == Acquired && holder == tx
  {
    var manager := new InMemoryResourceLockManager();
    outcome := manager.Acquire(tx, r);
    holder := manager.locks[r];
  }

  /** sameTxShouldBeAbleToReacquireLockItAlreadyHolds: both acquires succeed; the second changes nothing. */
  method ReacquireHeldLock(tx: TxId, r: ResourceId) returns (first: AcquireOutcome, second: AcquireOutcome, tableKept: bool)
    ensures first == Acquired && second == Acquired && tableKept
  {
    var manager := new InMemoryResourceLockManager();
    first := manager.Acquire(tx, r);
    var before := manager.locks;
    second := manager.Acquire(tx, r);
    tableKept := manager.locks == before;
  }

  /** shouldFailToAcquireLockWhenHeldByAnotherTx: the second transaction is refused and the lock stays with the first. */
  method FailWhenHeldByAnotherTx(tx1: TxId, tx2: TxId, r: ResourceId) returns (outcome: AcquireOutcome, holder: TxId)
    requires tx1 != tx2
    ensures outcome == ConcurrentUpdate(tx1) && holder == tx1
  {
    var manager := new InMemoryResourceLockManager();
    var _ := manager.Acquire(tx1, r);
    outcome := manager.Acquire(tx2, r);
    holder := manager.locks[r];
  }

  /**
   * shouldAcquireLockAfterReleasedByAnotherTx and
   * releasingAlreadyReleasedLocksShouldDoNothing: after one or two
   * `releaseAll(tx1)` calls, `tx2` takes the resource.
   */
  method AcquireAfterReleasedByAnotherTx(tx1: TxId, tx2: TxId, r: ResourceId, releaseTwice: bool) returns (outcome: AcquireOutcome)
    ensures outcome == Acquired
  {
    var manager := new InMemoryResourceLockManager();
    var _ := manager.Acquire(tx1, r);
    manager.ReleaseAll(tx1);
    if releaseTwice {
      manager.ReleaseAll(tx1);
    }
    outcome := manager.Acquire(tx2, r);
  }

  /**
   * concurrentRequestsFromSameTxShouldBothSucceedWhenLockAvailable: the two
   * calls run one after the other (either order gives the same calls).
   */
  method SameTxRace(tx: TxId, r: ResourceId) returns (first: AcquireOutcome, second: AcquireOutcome)
    ensures first == Acquired && second == Acquired
  {
    var manager := new InMemoryResourceLockManager();
    first := manager.Acquire(tx, r);
    second := manager.Acquire(tx, r);
  }

  /**
   * concurrentRequestsFromDifferentTxesOnlyOneShouldSucceed: whichever of the
   * two calls runs first wins, and exactly one of them succeeds.
   */
  method DifferentTxRace(tx1: TxId, tx2: TxId, r: ResourceId, tx1First: bool) returns (ok1: bool, ok2: bool)
    requires tx1 != tx2
    ensures ok1 != ok2
    ensures ok1 == tx1First
  {
    var manager := new InMemoryResourceLockManager();
    var outcome1, outcome2;
    if tx1First {
      outcome1 := manager.Acquire(tx1, r);
      outcome2 := manager.Acquire(tx2, r);
    } else {
      outcome2 := manager.Acquire(tx2, r);
      outcome1 := manager.Acquire(tx1, r);
    }
    ok1 := outcome1 == Acquired;
    ok2 := outcome2 == Acquired;
  }
}
