/**
 * Call sequences of the lock registry and the storage service with the outcomes their contracts
 * determine: a registry or service is built from scratch and driven through a few calls.
 */
module Scenarios {
  import opened Wrappers
  import opened Rasters
  import opened FileNames
  import opened Locking
  import opened IOServices
  import opened Failures

  /** Without `addLock`, acquiring in either mode reports that the charta is not found. */
  method AcquireWithoutLock(id: Id, mode: LockType, t: ThreadId) returns (r: AcquireOutcome)
    ensures r == NotFound
  {
    var registry := new LockRegistry();
    r := registry.AcquireLock(id, mode, t, false);
  }

  /** After `addLock` either mode can be acquired, even where `id` already had a lock held by others. */
  method AddLockThenAcquire(id: Id, mode: LockType, t: ThreadId, other: ThreadId) returns (r: AcquireOutcome)
    ensures r == Acquired(true)
  {
    var registry := new LockRegistry();
    registry.AddLock(id);
    var held := registry.AcquireLock(id, Exclusive, other, false);
    registry.AddLock(id);
    r := registry.AcquireLock(id, mode, t, false);
  }

  /**
   * Thread `first` holds the lock in `held`; then thread `second` tries `wanted`. Only two read
   * holds go together.
   */
  method SecondAcquire(id: Id, held: LockType, wanted: LockType, first: ThreadId, second: ThreadId)
    returns (r1: AcquireOutcome, r2: AcquireOutcome)
    requires first != second
    ensures r1 == Acquired(true)
    ensures r2 == Acquired(held == Shared && wanted == Shared)
  {
    var registry := new LockRegistry();
    registry.AddLock(id);
    r1 := registry.AcquireLock(id, held, first, false);
    r2 := registry.AcquireLock(id, wanted, second, false);
  }

  /** Once `first` frees its lock, `second` acquires in any mode. */
  method FreeThenAcquire(id: Id, held: LockType, wanted: LockType, first: ThreadId, second: ThreadId)
    returns (r: AcquireOutcome)
    ensures r == Acquired(true)
  {
    var registry := new LockRegistry();
    registry.AddLock(id);
    var acquired := registry.AcquireLock(id, held, first, false);
    registry.FreeLock(id, held, first);
    FreedLockIsAvailable(first, held, second, wanted);
    r := registry.AcquireLock(id, wanted, second, false);
  }

  /** `addAndAcquireLock` on a registered id acquires nothing: another thread can still write. */
  method AddAndAcquireOnRegistered(id: Id, mode: LockType, t: ThreadId, other: ThreadId) returns (r: AcquireOutcome)
    requires t != other
    ensures r == Acquired(true)
  {
    var registry := new LockRegistry();
    registry.AddLock(id);
    registry.AddAndAcquireLock(id, mode, t);
    r := registry.AcquireLock(id, Exclusive, other, false);
  }

  /** A created charta reads back as a black image of the requested size. */
  method CreateThenRead(id: Id, width: int, height: int, t: ThreadId) returns (r: Result<Raster, Failure>)
    requires width >= 1 && height >= 1
    ensures r == Ok(Blank(width, height))
  {
    var registry := new LockRegistry();
    var service := new IOService(map[], registry);
    var created := service.CreateCharta(id, width, height, false);
    r := service.ReadCharta(id, t, false, false);
  }

  /** A deleted charta is gone together with its lock: reading it again reports that it is not found. */
  method CreateDeleteThenRead(id: Id, t: ThreadId) returns (deleted: Result<(), Failure>, r: Result<Raster, Failure>)
    ensures deleted == Ok(())
    ensures r == Err(ChartaNotFound)
  {
    var registry := new LockRegistry();
    var service := new IOService(map[], registry);
    var created := service.CreateCharta(id, 2, 2, false);
    ghost var heldAtRemoval;
    deleted, heldAtRemoval := service.DeleteCharta(id, t, false, false);
    r := service.ReadCharta(id, t, false, false);
  }

  /** While `writer` holds the write lock, a read by another thread throws `FileIsLocked`. */
  method ReadWhileWritten(id: Id, writer: ThreadId, reader: ThreadId) returns (r: Result<Raster, Failure>)
    requires writer != reader
    ensures r == Err(FileIsLocked)
  {
    var registry := new LockRegistry();
    var service := new IOService(map[], registry);
    var created := service.CreateCharta(id, 2, 2, false);
    var acquired := registry.AcquireLock(id, Exclusive, writer, false);
    r := service.ReadCharta(id, reader, false, false);
  }

  /**
   * Start-up discovers a lock for every charta in the folder; deleting one of them then removes its
   * file and its lock together, so the folder and the registry still name the same chartas.
   */
  method StartThenDelete(folder: map<Id, Raster>, ids: seq<Id>, imageType: string, id: Id, t: ThreadId)
    returns (r: Result<(), Failure>, stored: set<Id>, locked: set<Id>)
    requires forall k :: k in folder ==> folder[k].Valid()
    requires forall k :: k in folder <==> k in ids
    requires '.' !in imageType && id in folder
    ensures r == Ok(())
    ensures stored == locked == folder.Keys - {id}
  {
    var service := PrepareService(folder, ids, imageType);
    ghost var heldAtRemoval;
    r, heldAtRemoval := service.DeleteCharta(id, t, false, false);
    stored, locked := service.store.Keys, service.lockerService.locks.Keys;
  }
}
