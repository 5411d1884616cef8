/**
 * The lock registry (`ReadWriteLockerService`): one reentrant read/write lock per charta id.
 * Threads are named by an explicit `ThreadId`; the timed `tryLock` of a lock succeeds at once when
 * the requested mode is compatible with the current holders and otherwise reports `false`.
 */
module Locking {
  import opened Wrappers
  import opened FileNames

  type ThreadId = nat

  datatype LockType = Shared | Exclusive

  /**
   * The state of one read/write lock: the read holds (a thread may hold several), and the thread
   * that owns the write lock with its number of write holds.
   */
  datatype LockEntry = LockEntry(readers: multiset<ThreadId>, writer: Option<ThreadId>, writeHolds: nat) {

    /**
     * A write owner has at least one hold, and while the write lock is owned the only read holds
     * are the owner's own.
     */
    predicate Valid() {
      && (writer.None? <==> writeHolds == 0)
      && (writer.Some? ==> forall t :: t in readers ==> t == writer.value)
    }

    /** Thread `t` currently holds the lock in `mode`. */
    predicate Holds(mode: LockType, t: ThreadId) {
      match mode
      case Shared => t in readers
      case Exclusive => writer == Some(t)
    }

    /**
     * `tryLock` would succeed for `t`: a read hold needs no write owner other than `t`; a write hold
     * needs `t` to own the write lock already, or no holder at all.
     */
    predicate CanAcquire(mode: LockType, t: ThreadId) {
      match mode
      case Shared => writer.None? || writer == Some(t)
      case Exclusive => writer == Some(t) || (writer.None? && |readers| == 0)
    }

    /** The lock after `t` has been granted one more hold in `mode`. */
    function Acquire(mode: LockType, t: ThreadId): (e: LockEntry)
      requires CanAcquire(mode, t)
      ensures e.Holds(mode, t)
      ensures Valid() ==> e.Valid()
    {
      match mode
      case Shared => this.(readers := readers + multiset{t})
      case Exclusive => LockEntry(readers, Some(t), writeHolds + 1)
    }

    /** `unlock()`: one hold of `t` in `mode` is given up; a lock `t` does not hold is left alone. */
    function Release(mode: LockType, t: ThreadId): (e: LockEntry)
      ensures !Holds(mode, t) ==> e == this
      ensures Valid() ==> e.Valid()
    {
      if !Holds(mode, t) then this
      else match mode
        case Shared => this.(readers := readers - multiset{t})
        case Exclusive =>
          if writeHolds <= 1 then LockEntry(readers, None, 0) else this.(writeHolds := writeHolds - 1)
    }
  }

  /** A new `ReentrantReadWriteLock`: nobody holds it. */
  const Unlocked := LockEntry(multiset{}, None, 0)

  /** Releasing right after acquiring gives back the lock as it was. */
  lemma ReleaseUndoesAcquire(e: LockEntry, mode: LockType, t: ThreadId)
    requires e.Valid() && e.CanAcquire(mode, t)
    ensures e.Acquire(mode, t).Release(mode, t) == e
  {
    match mode
    case Shared =>
      assert e.readers + multiset{t} - multiset{t} == e.readers;
    case Exclusive =>
  }

  /** An acquire that would not succeed concerns a mode `t` does not hold, so releasing it is a no-op. */
  lemma ReleaseAfterRefusalIsNoOp(e: LockEntry, mode: LockType, t: ThreadId)
    requires e.Valid() && !e.CanAcquire(mode, t)
    ensures !e.Holds(mode, t) && e.Release(mode, t) == e
  {
  }

  /** Mutual exclusion: a write owner shares the lock with nobody else, in either mode. */
  lemma WriterExcludesOthers(e: LockEntry, owner: ThreadId, t: ThreadId, mode: LockType)
    requires e.Valid() && e.Holds(Exclusive, owner) && t != owner
    ensures !e.CanAcquire(mode, t) && !e.Holds(mode, t)
  {
  }

  /** Readers do not exclude readers: without a write owner any thread may take a read hold. */
  lemma ReadersShare(e: LockEntry, t: ThreadId)
    requires e.writer.None?
    ensures e.CanAcquire(Shared, t)
  {
  }

  /** A read hold of another thread keeps `t` from taking the write lock. */
  lemma ReaderExcludesWriter(e: LockEntry, reader: ThreadId, t: ThreadId)
    requires e.Valid() && e.Holds(Shared, reader) && reader != t
    ensures !e.CanAcquire(Exclusive, t)
  {
  }

  /** Once the only holder lets go, any thread can take the lock in either mode. */
  lemma {:induction false} FreedLockIsAvailable(holder: ThreadId, held: LockType, t: ThreadId, mode: LockType)
    ensures Unlocked.Acquire(held, holder).Release(held, holder) == Unlocked
    ensures Unlocked.Acquire(held, holder).Release(held, holder).CanAcquire(mode, t)
  {
    ReleaseUndoesAcquire(Unlocked, held, holder);
  }

  /** `lockMap` after `freeLock(id, mode)` by `t`: unchanged when `id` has no entry. */
  function FreeIn(locks: map<Id, LockEntry>, id: Id, mode: LockType, t: ThreadId): (m: map<Id, LockEntry>)
    ensures m.Keys == locks.Keys
    ensures forall other :: other in locks && other != id ==> m[other] == locks[other]
  {
    if id in locks then locks[id := locks[id].Release(mode, t)] else locks
  }

  /** In the registry: `freeLock` right after a successful `acquireLock` leaves the map as it was. */
  lemma FreeUndoesAcquireIn(locks: map<Id, LockEntry>, id: Id, mode: LockType, t: ThreadId)
    requires id in locks && locks[id].Valid() && locks[id].CanAcquire(mode, t)
    ensures FreeIn(locks[id := locks[id].Acquire(mode, t)], id, mode, t) == locks
  {
    ReleaseUndoesAcquire(locks[id], mode, t);
    assert locks[id := locks[id]] == locks;
  }

  /** `t` holds the lock of `id` in `mode`. */
  predicate HoldsIn(locks: map<Id, LockEntry>, id: Id, mode: LockType, t: ThreadId) {
    id in locks && locks[id].Holds(mode, t)
  }

  /** What `acquireLock` reports: `NotFound` and `Interrupted` stand for the two exceptions. */
  datatype AcquireOutcome = Acquired(granted: bool) | NotFound | Interrupted

  /** Every lock of the registry is a consistent read/write lock. */
  predicate AllValid(locks: map<Id, LockEntry>) {
    forall id :: id in locks ==> locks[id].Valid()
  }

  class LockRegistry {
    /** `lockMap`: the lock of each registered charta id. */
    var locks: map<Id, LockEntry>

    ghost predicate Valid()
      reads this
    {
      AllValid(locks)
    }

    constructor ()
      ensures Valid() && locks == map[]
    {
      locks := map[];
    }

    /** `addLock`: installs a new unlocked lock for `id`, replacing any lock it had. */
    method AddLock(id: Id)
      requires Valid()
      modifies this
      ensures Valid()
      ensures locks == old(locks)[id := Unlocked]
    {
      locks := locks[id := Unlocked];
    }

    /**
     * `addAndAcquireLock`: only when `id` has no lock, installs one already held by `t` in `mode`;
     * a lock `id` already has is left as it is and nothing is acquired.
     */
    method AddAndAcquireLock(id: Id, mode: LockType, t: ThreadId)
      requires Valid()
      modifies this
      ensures Valid()
      ensures id in old(locks) ==> locks == old(locks)
      ensures id !in old(locks) ==> locks == old(locks)[id := Unlocked.Acquire(mode, t)]
    {
      if id !in locks {
        locks := locks[id := Unlocked.Acquire(mode, t)];
      }
    }

    /**
     * `acquireLock`: `NotFound` for an id without a lock; `Interrupted` when the thread is interrupted
     * (`interrupted` is the thread's interrupt status); otherwise whether `tryLock` succeeded.
     * Only a successful acquire changes the registry.
     */
    method AcquireLock(id: Id, mode: LockType, t: ThreadId, interrupted: bool) returns (r: AcquireOutcome)
      requires Valid()
      modifies this
      ensures Valid()
      ensures id !in old(locks) ==> r == NotFound
      ensures id in old(locks) && interrupted ==> r == Interrupted
      ensures id in old(locks) && !interrupted ==> r == Acquired(old(locks)[id].CanAcquire(mode, t))
      ensures locks == if r == Acquired(true) then old(locks)[id := old(locks)[id].Acquire(mode, t)]
                       else old(locks)
    {
      if id !in locks {
        return NotFound;
      }
      if interrupted {
        return Interrupted;
      }
      var entry := locks[id];
      if entry.CanAcquire(mode, t) {
        locks := locks[id := entry.Acquire(mode, t)];
        r := Acquired(true);
      } else {
        r := Acquired(false);
      }
    }

    /**
     * `freeLock`: gives up one hold of `t` in `mode`. A missing id, or a lock `t` does not hold in
     * that mode, is silently ignored.
     */
    method FreeLock(id: Id, mode: LockType, t: ThreadId)
      requires Valid()
      modifies this
      ensures Valid()
      ensures locks == FreeIn(old(locks), id, mode, t)
      ensures !HoldsIn(old(locks), id, mode, t) ==> locks == old(locks)
    {
      if id in locks {
        locks := locks[id := locks[id].Release(mode, t)];
      }
    }

    /** `removeLock`: drops the lock of `id` (if any); every other id keeps its lock. */
    method RemoveLock(id: Id)
      requires Valid()
      modifies this
      ensures Valid()
      ensures locks == old(locks) - {id}
      ensures id !in locks && forall other :: other in old(locks) && other != id ==> other in locks && locks[other] == old(locks)[other]
    {
      locks := locks - {id};
    }
  }
}
