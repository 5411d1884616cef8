# Chartographer service core in Dafny

Chartographer is a Spring service that stores large bitmap images ("chartas") on disk. Clients create
a black charta of a given size, put image fragments onto it, read fragments back and delete it. Each
charta file is guarded by a read/write lock, keyed by the charta's id. This project models the
sequential logic inside the service and proves properties of it:

- **Request validation** (`validation.dfy`): the size, negative-plane and intersection rules for
  creating a charta, putting a fragment and getting a fragment, with their order of precedence. The
  rules are pure functions returning a verdict.
- **Compositing** (`compositing.dfy`, `rasters.dfy`): `drawFragmentOnCharta` as a method that fills a
  fresh 2-D array with nested loops. Rasters are grids of `int` pixels, and 0 is black.
- **Charta ids from file names** (`filenames.dfy`): the text before the last '.' of a file name, and
  how discovery reacts to a name without one.
- **Chartas service** (`chartasservice.dfy`): the `pathsToChartas` list of known ids, `createCharta`
  and `putFragment`. The chartas folder is a map from id to raster.
- **Lock registry** (`locking.dfy`): `ReadWriteLockerService` as a class whose `locks` map the
  methods update. Each lock entry models a `ReentrantReadWriteLock`:
  - the read holds are a multiset of thread ids;
  - there is an optional write owner with a hold count;
  - the write owner may also take read holds, but a reader cannot upgrade to the write lock;
  - `unlock` of a hold the thread does not have is a no-op, because the source catches the
    `IllegalMonitorStateException` and ignores it.
  The caller's thread id is an explicit parameter. A timed `tryLock` succeeds exactly when the
  request is compatible with the current holds, and otherwise returns false.
- **Storage service** (`ioservice.dfy`): `DefaultIOService` over a store of rasters and the lock
  registry, including its `try`/`catch`/`finally` release paths. Three things are parameters:
  whether the file operation fails, whether the thread is interrupted, and the calling thread.
- **Failures** (`failures.dfy`): one datatype shared by both services, with one constructor per
  exception class.
- **Scenarios** (`scenarios.dfy`): call sequences from the unit tests. Each one builds a registry or
  a service from scratch, and its contract fixes every outcome.

What the storage-service proofs establish about lock balance:
- `ReadCharta` and `WriteCharta` leave the registry exactly as they found it on every exit path
  (success, busy, interrupt, I/O failure) whenever the caller did not already hold the lock in that
  mode.
- On I/O failure the source releases twice: once in the `catch` and once in the `finally`. The
  second release is a no-op.
- If the caller already held the lock in that mode, the interrupt and I/O-failure paths give away
  one of the caller's own holds. This follows from the `finally` release, and the contracts state
  it through `FreeIn`.
- `DeleteCharta` has no `finally`. On success it removes the lock entry while the caller holds the
  write lock: the ghost result `heldAtRemoval` is the removed entry, and the contract states that it
  equals the lock as it stood before the call plus the exclusive hold granted to the caller.
  On every failure it leaves the registry and the store unchanged.
- `PrepareService` shows where the lock-per-charta invariant (`Consistent`) starts. Start-up
  discovery over a listing of the folder's file names registers exactly one lock per stored charta.
  `CreateCharta`, `WriteCharta` and `DeleteCharta` then keep that invariant; `StartThenDelete` runs
  start-up followed by a delete.

Where the source and its unit tests disagree, the model follows the source, except for validation.
The modelled revision of the service does not contain the validation code, so its rules come from
its unit tests. Those tests call a newer API than the modelled main classes.
- The model assumes that put checks no size at all. The design description does prescribe a size
  check for put. The tests contradict a size check ahead of the intersection test: a put of a 0 x 0
  rectangle reaches that test and fails with NoIntersection. No test says whether a size check
  comes after it. `PutAcceptsEmptyRect` follows from this assumption, not from a test.
- The order of create's two checks (too big before non-positive) is not fixed by any test. The model
  uses the same order as get, where the tests do fix it.

## Model

| member | source | states |
|---|---|---|
| Rasters.Blank | src/main/java/ru/baby_benz/kontur/intern/chartographer/service/impl/DefaultIOService.java:53 | a new `TYPE_INT_RGB` image is width x height and every pixel is black (0) |
| Validation.ValidateCreate | src/test/java/ru/baby_benz/kontur/intern/chartographer/service/impl/DefaultChartasServiceTest.java:76-168 | create is accepted iff 1 <= width <= max width and 1 <= height <= max height; TooBigCharta iff a maximum is exceeded; NegativeDimensions for a non-positive size within the maxima; no other rejection |
| Validation.ValidatePut | src/test/java/ru/baby_benz/kontur/intern/chartographer/service/impl/DefaultChartasServiceTest.java:170-396 | put is accepted iff x + width > 0, y + height > 0, x < charta width and y < charta height; FragmentNegativePlane iff x + width <= 0 or y + height <= 0 (so it wins over NoIntersection); only these two rejections |
| Validation.ValidateGet | src/test/java/ru/baby_benz/kontur/intern/chartographer/service/impl/DefaultChartasServiceTest.java:398-639 | get is accepted iff the size is within 1..max and the rectangle passes the put tests; TooBigFragment iff a maximum is exceeded (wins over non-positive); NegativeDimensions iff within the maxima and non-positive (wins over the negative plane); FragmentNegativePlane iff the size is valid and the rectangle is in the negative plane |
| Validation.GetAcceptedOverlaps | src/test/java/ru/baby_benz/kontur/intern/chartographer/service/impl/DefaultChartasServiceTest.java:564-639 | an accepted get shares the pixel (max(x,0), max(y,0)) with the charta |
| Validation.PutAcceptsEmptyRect | src/test/java/ru/baby_benz/kontur/intern/chartographer/service/impl/DefaultChartasServiceTest.java:242-312 | under the model's assumption that put checks no size, a 0 x 0 put at (1, 1) passes both put tests on a charta of at least 2 x 2 |
| FileNames.LastIndexOf | src/main/java/ru/baby_benz/kontur/intern/chartographer/service/impl/DefaultChartasService.java:55 | `lastIndexOf`: -1 iff the character is absent, otherwise an index holding it with no later occurrence |
| FileNames.StripExtension | src/main/java/ru/baby_benz/kontur/intern/chartographer/service/impl/DefaultChartasService.java:55 | `substring(0, lastIndexOf('.'))`: no id (an exception) iff the name has no '.', otherwise the prefix before a '.' with no '.' after it |
| FileNames.StripFileName | src/main/java/ru/baby_benz/kontur/intern/chartographer/service/impl/DefaultChartasService.java:65 | stripping the name `id + "." + type` (type without '.') gives back `id`, even when `id` contains dots |
| FileNames.DiscoveredIds | src/main/java/ru/baby_benz/kontur/intern/chartographer/service/impl/DefaultChartasService.java:53-56 | the discovered ids are the stripped names, in order, up to the first name without a '.' |
| FileNames.DiscoveredIdsSnoc | src/main/java/ru/baby_benz/kontur/intern/chartographer/service/impl/DefaultChartasService.java:53-56 | one more name extends the ids discovered so far by its id, or by nothing if it has no '.' |
| FileNames.DiscoveredIdsStop | src/main/java/ru/baby_benz/kontur/intern/chartographer/service/impl/DefaultChartasService.java:53-56 | discovery ends at the first name without a '.' |
| FileNames.DiscoverFileNames | src/main/java/ru/baby_benz/kontur/intern/chartographer/service/impl/DefaultChartasService.java:48-58 | discovering the file names of a list of ids gives back exactly those ids |
| Compositing.DrawFragmentOnCharta | src/main/java/ru/baby_benz/kontur/intern/chartographer/service/impl/DefaultChartasService.java:103-115 | the result has the charta's size; a pixel outside the fragment's footprint is the charta's pixel; a pixel inside it is the fragment's pixel at the offset (overwrite, not blend); fragment pixels outside the charta are dropped |
| ChartasServices.ChartasService.DiscoverChartas | src/main/java/ru/baby_benz/kontur/intern/chartographer/service/impl/DefaultChartasService.java:48-58 | `pathsToChartas` gains the discovered ids, in order; `completed` iff every name has a '.' |
| ChartasServices.ChartasService.CreateCharta | src/main/java/ru/baby_benz/kontur/intern/chartographer/service/impl/DefaultChartasService.java:60-74 | a non-positive size fails with IllegalArgument, and a failed write fails with ChartaIO (the folder is modelled as unchanged then; see Left out); otherwise the charta's file holds a black width x height raster and `id` is returned; `pathsToChartas` never changes |
| ChartasServices.ChartasService.CreateAndRegisterCharta | src/main/java/ru/baby_benz/kontur/intern/chartographer/service/impl/DefaultChartasService.java:60-74 | as CreateCharta, and a created id is appended to `pathsToChartas` |
| ChartasServices.ChartasService.PutFragment | src/main/java/ru/baby_benz/kontur/intern/chartographer/service/impl/DefaultChartasService.java:76-94 | an unknown id fails with ChartaNotFound; a fragment that cannot be decoded or a charta that cannot be read or written fails with ChartaIO; every failure leaves the files unchanged; on success only the charta's file changes, to the fragment drawn over the old charta |
| ChartasServices.CreateThenPutAsWritten | src/main/java/ru/baby_benz/kontur/intern/chartographer/service/impl/DefaultChartasService.java:60-94 | a charta just created is unknown to a fragment put: the put fails with ChartaNotFound |
| ChartasServices.CreateThenPutRegistered | src/main/java/ru/baby_benz/kontur/intern/chartographer/service/impl/DefaultChartasService.java:76-94 | with the id registered at creation, the same put succeeds and paints the fragment's pixel at (0, 0) |
| Locking.LockEntry.Acquire | src/main/java/ru/baby_benz/kontur/intern/chartographer/service/impl/ReadWriteLockerService.java:41-50 | a granted `tryLock` makes the thread a holder in that mode and keeps the lock consistent |
| Locking.LockEntry.Release | src/main/java/ru/baby_benz/kontur/intern/chartographer/service/impl/ReadWriteLockerService.java:57-71 | `unlock` gives up exactly one hold of the thread in that mode; without such a hold the lock is unchanged |
| Locking.ReleaseUndoesAcquire | src/main/java/ru/baby_benz/kontur/intern/chartographer/service/impl/ReadWriteLockerService.java:57-71 | releasing right after a granted acquire restores the lock exactly |
| Locking.ReleaseAfterRefusalIsNoOp | src/main/java/ru/baby_benz/kontur/intern/chartographer/service/impl/ReadWriteLockerService.java:68-69 | after a refused acquire the thread holds nothing in that mode, so a release changes nothing |
| Locking.WriterExcludesOthers | src/test/java/ru/baby_benz/kontur/intern/chartographer/service/impl/ReadWriteLockerServiceTest.java:49-82 | while a thread owns the write lock, every other thread's shared or exclusive acquire is refused |
| Locking.ReadersShare | src/test/java/ru/baby_benz/kontur/intern/chartographer/service/impl/ReadWriteLockerServiceTest.java:61-71 | without a write owner any thread's shared acquire succeeds |
| Locking.ReaderExcludesWriter | src/test/java/ru/baby_benz/kontur/intern/chartographer/service/impl/ReadWriteLockerServiceTest.java:84-93 | while another thread holds a read lock, an exclusive acquire is refused |
| Locking.FreedLockIsAvailable | src/test/java/ru/baby_benz/kontur/intern/chartographer/service/impl/ReadWriteLockerServiceTest.java:119-131 | after the only holder frees the lock it is unlocked again, and any thread can acquire it in either mode |
| Locking.FreeIn | src/main/java/ru/baby_benz/kontur/intern/chartographer/service/impl/ReadWriteLockerService.java:57-71 | `freeLock` on the map: a missing id changes nothing, and no other id's lock changes |
| Locking.FreeUndoesAcquireIn | src/main/java/ru/baby_benz/kontur/intern/chartographer/service/impl/ReadWriteLockerService.java:57-71 | on the registry map, `freeLock` right after a granted `acquireLock` restores the map exactly |
| Locking.LockRegistry.AddLock | src/main/java/ru/baby_benz/kontur/intern/chartographer/service/impl/ReadWriteLockerService.java:21-23 | `addLock` installs an unlocked lock for the id, replacing any lock it had |
| Locking.LockRegistry.AddAndAcquireLock | src/main/java/ru/baby_benz/kontur/intern/chartographer/service/impl/ReadWriteLockerService.java:26-38 | an absent id gets a lock already held by the caller in that mode; a present id's lock is left untouched |
| Locking.LockRegistry.AcquireLock | src/main/java/ru/baby_benz/kontur/intern/chartographer/service/impl/ReadWriteLockerService.java:41-54 | a missing id gives NotFound, and an interrupted thread gives Interrupted; otherwise the result is whether the request is compatible with the current holds; only a grant changes the map |
| Locking.LockRegistry.FreeLock | src/main/java/ru/baby_benz/kontur/intern/chartographer/service/impl/ReadWriteLockerService.java:57-71 | `freeLock` releases one hold; a missing id or a hold the caller does not have is a no-op |
| Locking.LockRegistry.RemoveLock | src/main/java/ru/baby_benz/kontur/intern/chartographer/service/impl/ReadWriteLockerService.java:74-76 | `removeLock` deletes that id's lock (a no-op if absent) and keeps every other lock |
| IOServices.FreshLocks | src/main/java/ru/baby_benz/kontur/intern/chartographer/service/impl/DefaultIOService.java:44-47 | the locks registered by discovery: one unlocked lock for each listed id and none for any other id |
| IOServices.FreshLocksSnoc | src/main/java/ru/baby_benz/kontur/intern/chartographer/service/impl/DefaultIOService.java:44-47 | registering one more id's lock extends the discovered locks by that id |
| IOServices.IOService.DiscoverChartas | src/main/java/ru/baby_benz/kontur/intern/chartographer/service/impl/DefaultIOService.java:39-49 | the registry gains an unlocked lock for every discovered id; `completed` iff every name has a '.' |
| IOServices.IOService.CreateCharta | src/main/java/ru/baby_benz/kontur/intern/chartographer/service/impl/DefaultIOService.java:52-68 | a non-positive size fails with IllegalArgument, and a failed write fails with ChartaIO, registering no lock (the store is modelled as unchanged then; see Left out); otherwise a black raster is stored and an unlocked lock is registered; the lock keys stay equal to the stored ids |
| IOServices.PrepareService | src/main/java/ru/baby_benz/kontur/intern/chartographer/service/impl/DefaultIOService.java:26-49 | start-up over a fresh registry with the folder's file names as the listing: every stored charta gets an unlocked lock and no other id does, so lock keys equal stored ids (`Consistent`); the service and its registry are new objects, so any operation can be run on them |
| IOServices.IOService.ReadCharta | src/main/java/ru/baby_benz/kontur/intern/chartographer/service/impl/DefaultIOService.java:71-94 | NotFound, ServiceIsUnavailable, FileIsLocked, ChartaIO or the stored raster, by case; the registry is unchanged on success, NotFound and FileIsLocked; the interrupt and I/O-failure paths come to one `freeLock`, which is a no-op unless the caller already held a read hold |
| IOServices.IOService.WriteCharta | src/main/java/ru/baby_benz/kontur/intern/chartographer/service/impl/DefaultIOService.java:106-133 | the same lock outcomes with the write lock; on success only that id's raster is replaced; every failure leaves the store unchanged |
| IOServices.IOService.DeleteCharta | src/main/java/ru/baby_benz/kontur/intern/chartographer/service/impl/DefaultIOService.java:152-173 | on success the raster and the lock entry are both gone, and the removed entry (`heldAtRemoval`) is the caller's old entry plus the exclusive hold the caller was granted, so the caller held it exclusively when it was removed; every failure (NotFound, FileIsLocked, ServiceIsUnavailable, ChartaIO) leaves store and registry unchanged |
| Scenarios.AcquireWithoutLock | src/test/java/ru/baby_benz/kontur/intern/chartographer/service/impl/ReadWriteLockerServiceTest.java:43-47 | acquiring a lock that was never added gives NotFound |
| Scenarios.AddLockThenAcquire | src/test/java/ru/baby_benz/kontur/intern/chartographer/service/impl/ReadWriteLockerServiceTest.java:35-41 | after `addLock` either mode is granted, even where the old lock was held by another thread |
| Scenarios.SecondAcquire | src/test/java/ru/baby_benz/kontur/intern/chartographer/service/impl/ReadWriteLockerServiceTest.java:49-93 | a second thread's acquire is granted only when both requests are shared |
| Scenarios.FreeThenAcquire | src/test/java/ru/baby_benz/kontur/intern/chartographer/service/impl/ReadWriteLockerServiceTest.java:119-131 | after the holder frees its lock, another thread acquires it in any mode |
| Scenarios.AddAndAcquireOnRegistered | src/main/java/ru/baby_benz/kontur/intern/chartographer/service/impl/ReadWriteLockerService.java:26-38 | `addAndAcquireLock` on a registered id acquires nothing: another thread can still take the write lock |
| Scenarios.CreateThenRead | src/test/java/ru/baby_benz/kontur/intern/chartographer/service/impl/DefaultIOServiceTest.java:76-86 | a created charta reads back as a black image of the requested size |
| Scenarios.CreateDeleteThenRead | src/test/java/ru/baby_benz/kontur/intern/chartographer/service/impl/DefaultIOServiceTest.java:168-174 | after a successful delete, reading the charta fails with ChartaNotFound |
| Scenarios.StartThenDelete | src/main/java/ru/baby_benz/kontur/intern/chartographer/service/impl/DefaultIOService.java:152-173 | after start-up, deleting a stored charta succeeds and leaves the folder and the registry naming the same chartas, all but the deleted one |
| Scenarios.ReadWhileWritten | src/test/java/ru/baby_benz/kontur/intern/chartographer/service/impl/DefaultIOServiceTest.java:96-105 | while another thread holds the write lock, a read fails with FileIsLocked |

## Left out

- `getFragment` in `DefaultChartasService` is a stub that returns `null`, so only its validation rules are modelled (`ValidateGet`).
- Image encoding and decoding (ImageIO, the BMP byte layout, `read(Resource)`, `writeCharta(BufferedImage)` to bytes) are foreign codec calls. A raster is an abstract grid. A decoding that fails is `None`, and the success or failure of each file read, write or delete is a parameter.
- `ImageIO.read` returning `null` for an unrecognised format is not modelled. The model has only decoded fragments and failures.
- `ImageIO.write` returning false (no writer for the format) is not modelled.
- Filesystem paths, folder creation and the folder listing are left out. Discovery takes the listing as a sequence of names, and `null` or empty listings are the empty sequence.
- Real blocking, the `tryingTime` timeout, fairness and thread scheduling are left out. A `tryLock` is decided at once against the current holds.
- Interruption is a parameter. Restoring the interrupt flag in the `catch` block is not modelled.
- Alpha blending by `Graphics2D.drawImage` is left out: fragments are opaque, and drawing overwrites.
- UUID generation (`IdGenerator` is not part of this model) is left out. `createCharta` takes the new id as a parameter.
- Lower-casing of the configured image type in file names is not modelled. `FileName` takes the type as given.
- The Spring boundary is left out: controllers, exception-to-status mapping, error bodies, configuration properties (the maxima are parameters) and the service interfaces.
- Validation.ValidatePut: does not model 32-bit wrap-around of `x + width` and `y + height`, because the modelled revision of the service does not contain the validation code. The model states what their unit tests assert, over unbounded integers.
- Validation.ValidateGet: does not model 32-bit wrap-around of `x + width` and `y + height`, for the same reason.
- IOServices.IOService.CreateCharta: a failed write leaves the store unchanged and registers no lock. In the source, `Files.newOutputStream` creates or truncates the file before `ImageIO.write` can fail. That file, which has no lock and would get one at the next start-up, is not modelled.
- ChartasServices.ChartasService.CreateCharta: a failed write leaves the folder unchanged. The empty or truncated file that `Files.newOutputStream` may already have created is not modelled.
- ChartasServices.ChartasService.CreateAndRegisterCharta: the same gap as `CreateCharta` on a failed write.
- IOServices.IOService.CreateCharta: returns Ok for every positive size. It does not model the JDK limit on image area. `new BufferedImage(width, height, TYPE_INT_RGB)` throws once `width * height` in 32-bit arithmetic reaches 2^31 - 1 or wraps. It throws IllegalArgumentException or NegativeArraySizeException, depending on how the product wraps. That code is in the JDK, which is not part of this model.
- ChartasServices.ChartasService.CreateCharta: returns Ok for every positive size; the same JDK image-area limit is not modelled.
- ChartasServices.ChartasService.CreateAndRegisterCharta: returns Ok for every positive size; the same JDK image-area limit is not modelled.
- IOServices.IOService.WriteCharta: a failed write leaves the stored raster unchanged. A partly written or truncated file is not modelled.
- ChartasServices.ChartasService.PutFragment: a failed write leaves the stored raster unchanged. A partly written file is not modelled.

## Findings

| source | as written | input that shows it | evidently intended | confidence | as-written member | corrected member |
|---|---|---|---|---|---|---|
| src/main/java/ru/baby_benz/kontur/intern/chartographer/service/impl/DefaultChartasService.java:60-74 | `createCharta` writes the new charta's file and returns its id, but never adds the id to `pathsToChartas`; `putFragment` (line 78) accepts only ids in that list | create a 1 x 1 charta with id `id`, then put any fragment at (0, 0) on `id`: the put throws ChartaNotFound | a created charta is a known id, and a fragment put on it right after creation succeeds | not executed | ChartasServices.CreateThenPutAsWritten | ChartasServices.CreateThenPutRegistered |
