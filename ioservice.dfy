/**
 * The storage service (`DefaultIOService`): charta files on disk, each guarded by its lock in the
 * registry. The outcome of every file operation is passed in (`ioFails`), and so is the thread's
 * interrupt status; the lock registry itself is the real model of `ReadWriteLockerService`.
 */
module IOServices {
  import opened Wrappers
  import opened Rasters
  import opened FileNames
  import opened Locking
  import opened Failures

  /** New locks for every id in `ids`. */
  function FreshLocks(ids: seq<Id>): (m: map<Id, LockEntry>)
    ensures forall id :: id in m <==> id in ids
    ensures forall id :: id in m ==> m[id] == Unlocked
  {
    map id | id in ids :: Unlocked
  }

  lemma FreshLocksSnoc(base: map<Id, LockEntry>, ids: seq<Id>, id: Id)
    ensures (base + FreshLocks(ids))[id := Unlocked] == base + FreshLocks(ids + [id])
  {
    var left, right := (base + FreshLocks(ids))[id := Unlocked], base + FreshLocks(ids + [id]);
    forall k | k in left ensures k in right && left[k] == right[k] {
      if k != id && k !in FreshLocks(ids) {
        assert k in base;
      }
    }
    assert left.Keys == right.Keys;
  }

  class IOService {
    /** The chartas folder: the decoded image in each charta's file, by id. */
    var store: map<Id, Raster>
    const lockerService: LockRegistry

    ghost predicate Valid()
      reads this, lockerService
    {
      lockerService.Valid() && forall id :: id in store ==> store[id].Valid()
    }

    /** Every charta on disk has a lock and every lock belongs to a charta on disk. */
    ghost predicate Consistent()
      reads this, lockerService
    {
      lockerService.locks.Keys == store.Keys
    }

    constructor (files: map<Id, Raster>, registry: LockRegistry)
      requires registry.Valid() && forall id :: id in files ==> files[id].Valid()
      ensures Valid() && store == files && lockerService == registry
    {
      store := files;
      lockerService := registry;
    }

    /**
     * `discoverChartas`: registers a new lock for the id of every listed file name. A name without
     * a '.' throws (`completed` is false) after the locks of the names before it were registered.
     */
    method DiscoverChartas(listing: seq<string>) returns (completed: bool)
      requires Valid()
      modifies lockerService
      ensures Valid()
      ensures completed == AllHaveExtension(listing)
      ensures lockerService.locks == old(lockerService.locks) + FreshLocks(DiscoveredIds(listing))
    {
      ghost var base := lockerService.locks;
      var k := 0;
      while k < |listing|
        invariant 0 <= k <= |listing|
        invariant Valid()
        invariant AllHaveExtension(listing[..k])
        invariant lockerService.locks == base + FreshLocks(DiscoveredIds(listing[..k]))
      {
        var name := listing[k];
        match StripExtension(name) {
          case None =>
            DiscoveredIdsStop(listing, k);
            return false;
          case Some(id) =>
            FreshLocksSnoc(base, DiscoveredIds(listing[..k]), id);
            DiscoveredIdsStep(listing, k);
            lockerService.AddLock(id);
        }
        k := k + 1;
      }
      assert listing[..k] == listing;
      completed := true;
    }

    /**
     * `createCharta`: writes a black `width` x `height` image to the charta's file, then registers a
     * new lock for `id`. Nothing changes when the image cannot be made. A failed write is modelled
     * as leaving the store unchanged and registering no lock; the empty or truncated file that
     * `Files.newOutputStream` may already have created is not modelled.
     */
    method CreateCharta(id: Id, width: int, height: int, ioFails: bool) returns (r: Result<(), Failure>)
      requires Valid()
      modifies this, lockerService
      ensures Valid()
      ensures old(Consistent()) ==> Consistent()
      ensures (width <= 0 || height <= 0) ==> r == Err(IllegalArgument)
      ensures width > 0 && height > 0 && ioFails ==> r == Err(ChartaIO)
      ensures r.Err? ==> store == old(store) && lockerService.locks == old(lockerService.locks)
      ensures r.Ok? <==> width > 0 && height > 0 && !ioFails
      ensures r.Ok? ==> && store == old(store)[id := Blank(width, height)]
                        && lockerService.locks == old(lockerService.locks)[id := Unlocked]
    {
      if width <= 0 || height <= 0 {
        return Err(IllegalArgument);
      }
      var image := Blank(width, height);
      if ioFails {
        return Err(ChartaIO);
      }
      store := store[id := image];
      lockerService.AddLock(id);
      r := Ok(());
    }

    /**
     * `readCharta`: reads the charta under a read hold of its lock. The `finally` block releases the
     * read hold on every exit; on an I/O failure it is released twice.
     */
    method ReadCharta(id: Id, t: ThreadId, interrupted: bool, ioFails: bool) returns (r: Result<Raster, Failure>)
      requires Valid()
      modifies lockerService
      ensures Valid()
      ensures var locks := old(lockerService.locks);
              && (id !in locks ==> r == Err(ChartaNotFound))
              && (id in locks && interrupted ==> r == Err(ServiceIsUnavailable))
              && (id in locks && !interrupted && !locks[id].CanAcquire(Shared, t) ==> r == Err(FileIsLocked))
              && (id in locks && !interrupted && locks[id].CanAcquire(Shared, t) ==>
                    r == if ioFails || id !in store then Err(ChartaIO) else Ok(store[id]))
      ensures r.Ok? || r == Err(ChartaNotFound) || r == Err(FileIsLocked) ==>
                lockerService.locks == old(lockerService.locks)
      ensures r == Err(ServiceIsUnavailable) || r == Err(ChartaIO) ==>
                lockerService.locks == FreeIn(old(lockerService.locks), id, Shared, t)
      ensures !HoldsIn(old(lockerService.locks), id, Shared, t) ==> lockerService.locks == old(lockerService.locks)
    {
      var lockType := Shared;
      var acquired := lockerService.AcquireLock(id, lockType, t, interrupted);
      match acquired {
      case NotFound =>
        r := Err(ChartaNotFound);
      case Interrupted =>
        r := Err(ServiceIsUnavailable);
      case Acquired(granted) =>
        if !granted {
          r := Err(FileIsLocked);
        } else if ioFails || id !in store {
          FreeUndoesAcquireIn(old(lockerService.locks), id, lockType, t);
          lockerService.FreeLock(id, lockType, t);
          r := Err(ChartaIO);
        } else {
          FreeUndoesAcquireIn(old(lockerService.locks), id, lockType, t);
          r := Ok(store[id]);
        }
      }
      // finally
      if acquired == Acquired(false) {
        ReleaseAfterRefusalIsNoOp(old(lockerService.locks)[id], lockType, t);
      }
      lockerService.FreeLock(id, lockType, t);
    }

    /**
     * `writeCharta(id, charta)`: replaces the charta's file under the write lock. The `finally`
     * block releases the write lock on every exit; on an I/O failure it is released twice.
     */
    method WriteCharta(id: Id, charta: Raster, t: ThreadId, interrupted: bool, ioFails: bool)
      returns (r: Result<(), Failure>)
      requires Valid() && charta.Valid()
      modifies this, lockerService
      ensures Valid()
      ensures old(Consistent()) ==> Consistent()
      ensures var locks := old(lockerService.locks);
              && (id !in locks ==> r == Err(ChartaNotFound))
              && (id in locks && interrupted ==> r == Err(ServiceIsUnavailable))
              && (id in locks && !interrupted && !locks[id].CanAcquire(Exclusive, t) ==> r == Err(FileIsLocked))
              && (id in locks && !interrupted && locks[id].CanAcquire(Exclusive, t) ==>
                    r == if ioFails then Err(ChartaIO) else Ok(()))
      ensures r.Ok? ==> store == old(store)[id := charta]
      ensures r.Err? ==> store == old(store)
      ensures r.Ok? || r == Err(ChartaNotFound) || r == Err(FileIsLocked) ==>
                lockerService.locks == old(lockerService.locks)
      ensures (r == Err(ServiceIsUnavailable) || r == Err(ChartaIO)) ==>
                lockerService.locks == FreeIn(old(lockerService.locks), id, Exclusive, t)
      ensures !HoldsIn(old(lockerService.locks), id, Exclusive, t) ==> lockerService.locks == old(lockerService.locks)
    {
      var lockType := Exclusive;
      var acquired := lockerService.AcquireLock(id, lockType, t, interrupted);
      match acquired {
      case NotFound =>
        r := Err(ChartaNotFound);
      case Interrupted =>
        r := Err(ServiceIsUnavailable);
      case Acquired(granted) =>
        if !granted {
          r := Err(FileIsLocked);
        } else if ioFails {
          FreeUndoesAcquireIn(old(lockerService.locks), id, lockType, t);
          lockerService.FreeLock(id, lockType, t);
          r := Err(ChartaIO);
        } else {
          FreeUndoesAcquireIn(old(lockerService.locks), id, lockType, t);
          store := store[id := charta];
          r := Ok(());
        }
      }
      // finally
      if acquired == Acquired(false) {
        ReleaseAfterRefusalIsNoOp(old(lockerService.locks)[id], lockType, t);
      }
      lockerService.FreeLock(id, lockType, t);
    }

    /**
     * `deleteCharta`: deletes the charta's file under the write lock and, while still holding it,
     * removes the lock itself. There is no `finally` block: only the I/O failure path releases.
     * `heldAtRemoval` is the lock as it stood just before it was removed.
     */
    method DeleteCharta(id: Id, t: ThreadId, interrupted: bool, ioFails: bool)
      returns (r: Result<(), Failure>, ghost heldAtRemoval: LockEntry)
      requires Valid()
      modifies this, lockerService
      ensures Valid()
      ensures old(Consistent()) ==> Consistent()
      ensures var locks := old(lockerService.locks);
              && (id !in locks ==> r == Err(ChartaNotFound))
              && (id in locks && interrupted ==> r == Err(ServiceIsUnavailable))
              && (id in locks && !interrupted && !locks[id].CanAcquire(Exclusive, t) ==> r == Err(FileIsLocked))
              && (id in locks && !interrupted && locks[id].CanAcquire(Exclusive, t) ==>
                    r == if ioFails || id !in old(store) then Err(ChartaIO) else Ok(()))
      ensures r.Ok? ==> && store == old(store) - {id}
                        && lockerService.locks == old(lockerService.locks) - {id}
                        && id in old(lockerService.locks) && old(lockerService.locks)[id].CanAcquire(Exclusive, t)
                        && heldAtRemoval == old(lockerService.locks)[id].Acquire(Exclusive, t)
                        && heldAtRemoval.Holds(Exclusive, t)
      ensures r.Err? ==> store == old(store) && lockerService.locks == old(lockerService.locks)
    {
      heldAtRemoval := Unlocked;
      var lockType := Exclusive;
      var acquired := lockerService.AcquireLock(id, lockType, t, interrupted);
      match acquired {
      case NotFound =>
        r := Err(ChartaNotFound);
      case Interrupted =>
        r := Err(ServiceIsUnavailable);
      case Acquired(granted) =>
        if !granted {
          r := Err(FileIsLocked);
        } else if ioFails || id !in store {
          FreeUndoesAcquireIn(old(lockerService.locks), id, lockType, t);
          lockerService.FreeLock(id, lockType, t);
          r := Err(ChartaIO);
        } else {
          store := store - {id};
          assert HoldsIn(lockerService.locks, id, Exclusive, t);
          heldAtRemoval := lockerService.locks[id];
          lockerService.RemoveLock(id);
          r := Ok(());
        }
      }
    }
  }

  /**
   * `prepareService` at start-up, over a fresh registry: the folder listing names the file
   * `id + "." + type` of every charta in `folder`, and discovery gives each of them an unlocked lock
   * and no other id one, so every charta on disk has a lock and every lock a charta.
   */
  method PrepareService(folder: map<Id, Raster>, ids: seq<Id>, imageType: string) returns (service: IOService)
    requires forall id :: id in folder ==> folder[id].Valid()
    requires forall id :: id in folder <==> id in ids
    requires '.' !in imageType
    ensures fresh(service) && fresh(service.lockerService)
    ensures service.Valid() && service.Consistent()
    ensures service.store == folder
    ensures service.lockerService.locks == FreshLocks(ids)
  {
    var registry := new LockRegistry();
    service := new IOService(folder, registry);
    var listing := seq(|ids|, k requires 0 <= k < |ids| => FileName(ids[k], imageType));
    DiscoverFileNames(ids, imageType);
    var completed := service.DiscoverChartas(listing);
    assert map[] + FreshLocks(ids) == FreshLocks(ids);
  }
}
