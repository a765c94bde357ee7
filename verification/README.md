# A verified model of the vinci image bucket

vinci is an Android image cache. A *bucket* answers `get(path, width, height, listener)` from an in-memory LRU map of decoded drawables. When a key is unknown, the bucket schedules a *loader* on a LIFO thread pool. The loader finds the image in a disk cache, downloading and scaling it first when needed. It decodes the image into a bitmap taken from a bounded pool, settles the key in the map and posts a notification to the listeners waiting for the path.

This project models that core in Dafny and proves what the code promises about it.

- **The bounded pool** (`AbstractBlockingPool`, module `ObjectPool`, file `object_pool.dfy`).
  - `PoolState` holds `mPool`, `mAcquired` and `mAvailable`; resources are integer handles.
  - `acquire`, `release` and `drain` are pure step functions that carry the contracts.
  - The class `BlockingPool` keeps the same fields and updates them in place. Each of its methods is proved to do exactly what its step does.
  - The blocking `take` is the precondition `CanAcquire`.
- **The access-ordered map** (`LruBucket.LruCache`, module `LruMap`, file `lru_map.dfy`).
  - A sequence of entries from the least to the most recently used; the value `None` is the pending placeholder.
  - `get`, `put` (with `removeEldestEntry`) and `remove` are modelled, with the bitmap accounting of evictions.
  - Any history of operations leaves the map ordered by last use, so the entry evicted is the least recently used one.
- **The bucket** (`LruBucket` and `AbstractBucket`).
  - `bucket_steps.dfy` (module `BucketSteps`) holds the state as a value and each step as a function: `get`, `load`, `loadFromDisk`, `onLoaded`, `onFailure`, `notifyListeners`, a loader's `run`, and the main thread running a posted notification. The lemmas there prove that these steps keep the invariants and the load protocol.
  - `lru_bucket.dfy` (module `Buckets`) has the class `LruBucket` with the fields updated in place. Every method is proved to move the object from `Model()` to the state that the matching step computes.
- **Dispatch** (module `Dispatch`, file `dispatcher.dfy`).
  - The listener map is keyed by path; the loader set by (path, width, height).
  - Notifications and the callbacks they make.
  - One executor task per loader in flight.
- **The executor** (module `LifoExecutor`, file `executor.dfy`). The `ThreadPoolExecutor` over a deque whose `offer` inserts at the front. With one thread, the requests are served newest first.
- **The disk decision** (module `DiskCache`, file `disk_cache.dfy`). Cache file names, cache-path normalisation, and the two-tier decision of `LoaderRunnable.execute` over the set of existing files. The download, scale and decode outcomes are parameters.
- **The raw image loader** (module `RawImage`, file `raw_image_loader.dfy`). `RawImageLoader.load` and its reusable byte buffer, as a class over an `array`.

## Model

| member | source | states |
|---|---|---|
| ObjectPool.Fresh | src/main/java/com/vinci/util/AbstractBlockingPool.java:18-20 | a new pool satisfies the invariant, `getAvailable()` is the capacity, `getUnavailable()` is 0 and the whole capacity is creatable |
| ObjectPool.AcquireStep | src/main/java/com/vinci/util/AbstractBlockingPool.java:23-40 | the resource is recorded as acquired. `produce` runs exactly when nothing is available and the pool is below capacity, and the new resource joins `mPool`; otherwise the head of `mAvailable` is taken. The invariant is kept, and the resource was not on loan before |
| ObjectPool.ReleaseStep | src/main/java/com/vinci/util/AbstractBlockingPool.java:43-55 | a resource not in `mPool` is rejected as foreign, and one in `mPool` but not on loan is rejected as not acquired; each rejection changes nothing. A successful release moves the resource from `mAcquired` to the tail of `mAvailable` with `mPool` unchanged. The invariant is kept |
| ObjectPool.DrainStep | src/main/java/com/vinci/util/AbstractBlockingPool.java:58-62 | all three collections are empty, and releasing a resource handed out before the drain is rejected as not from this pool |
| ObjectPool.DrainedStayForeign | src/main/java/com/vinci/util/AbstractBlockingPool.java:44-46 | after a drain and any feasible history of acquires, releases and drains, every resource handed out before the drain is still rejected as not from this pool; new resources are numbered above them |
| ObjectPool.CreatableNonNegative | src/main/java/com/vinci/util/AbstractBlockingPool.java:64-74 | under the invariant `getCreatableAmount() >= 0`, `0 <= getUnavailable() <= capacity` and `getAvailable() >= 0` |
| ObjectPool.CanAcquireIff | src/main/java/com/vinci/util/AbstractBlockingPool.java:25-35 | `acquire` proceeds without blocking exactly when fewer than `capacity` resources are on loan |
| ObjectPool.DoubleReleaseRejected | src/main/java/com/vinci/util/AbstractBlockingPool.java:48-50 | a second release of the same resource with no acquire in between is rejected as not acquired and changes nothing |
| ObjectPool.AcquireTimes | src/main/java/com/vinci/util/AbstractBlockingPool.java:23-40 | `n` acquires with nothing queued and room for `n` resources produce `n` new resources, all on loan, and keep the invariant |
| ObjectPool.FactoryAcquiring | src/test/java/com/vinci/util/AbstractBlockingPoolTest.java:58-73 | after `i <= capacity` acquires on a fresh pool: `i` on loan, `capacity - i` available, `produce` called `i` times and `capacity - i` creatable |
| ObjectPool.ReplayKeepsInvariant | src/test/java/com/vinci/util/AbstractBlockingPoolTest.java:93-106 | after any feasible sequence of acquires, releases and drains: `mAcquired` and `mAvailable` are disjoint and make up `mPool`, the pool stays within its capacity, and `getCreatableAmount() >= 0` |
| ObjectPool.BlockingPool.constructor | src/main/java/com/vinci/util/AbstractBlockingPool.java:18-20 | the object's state is the fresh pool of the given capacity |
| ObjectPool.BlockingPool.Produce | src/main/java/com/vinci/util/AbstractBlockingPool.java:76 | returns the next handle number, above every handle in the pool, and counts the call |
| ObjectPool.BlockingPool.Acquire | src/main/java/com/vinci/util/AbstractBlockingPool.java:23-40 | the fields change as `AcquireStep` says, and the resource returned is the one it hands out |
| ObjectPool.BlockingPool.Take | src/main/java/com/vinci/util/AbstractBlockingPool.java:31 | the head of a non-empty `mAvailable` is removed and returned |
| ObjectPool.BlockingPool.Release | src/main/java/com/vinci/util/AbstractBlockingPool.java:43-55 | the fields and the outcome (released or which rejection) are those of `ReleaseStep` |
| ObjectPool.BlockingPool.Drain | src/main/java/com/vinci/util/AbstractBlockingPool.java:58-62 | the fields become those of `DrainStep` |
| LruMap.Put | src/main/java/com/vinci/bucket/LruBucket.java:259-283 | an entry is evicted exactly when a new key makes the map exceed its capacity, and then it is the eldest one. Keys stay distinct, the size stays within the capacity, and the key put holds the new value |
| LruMap.PutHeld | src/main/java/com/vinci/bucket/LruBucket.java:270-280 | after a put, the bitmaps the map holds are the old ones plus the new value's bitmap, minus the replaced value's bitmap and minus the evicted entry's bitmap; an evicted pending entry gives back nothing |
| LruMap.RemoveFacts | src/main/java/com/vinci/bucket/LruBucket.java:255 | `remove` drops exactly the key's entry and that entry's bitmap; the keys stay distinct |
| LruMap.TouchFacts | src/main/java/com/vinci/bucket/LruBucket.java:58-59 | an access-ordered `get` on a present key moves it to the most recent end; the keys, slots and held bitmaps are unchanged |
| LruMap.PutOther | src/main/java/com/vinci/bucket/LruBucket.java:242-243 | a put leaves the slot of every key other than the one put and the one evicted unchanged |
| LruMap.TouchKeepsUseOrder | src/main/java/com/vinci/bucket/LruBucket.java:264 | after an access to a key, the map is still ordered by last use, with that key now the most recent |
| LruMap.PutKeepsUseOrder | src/main/java/com/vinci/bucket/LruBucket.java:264 | after a put, the map is still ordered by last use, with the key put now the most recent |
| LruMap.RunIsUseOrdered | src/main/java/com/vinci/bucket/LruBucket.java:259-283 | after any history of gets, puts and removes on an empty map, the keys are distinct and ordered by the time of their last use |
| LruMap.EvictsLeastRecentlyUsed | src/main/java/com/vinci/bucket/LruBucket.java:264-280 | the entry a put evicts is the least recently used key: every other key in the map was used later |
| LruMap.EvictionScenario | src/main/java/com/vinci/bucket/LruBucket.java:259-283 | in a two-entry map, after putting A and B and reading B, putting C evicts A and leaves B then C |
| BucketSteps.New | src/main/java/com/vinci/bucket/LruBucket.java:43-50 | a new bucket satisfies the invariant, the load protocol and the no-leak balance; its cache path is normalised |
| BucketSteps.LoadStep | src/main/java/com/vinci/bucket/AbstractBucket.java:106-122 | a given listener is registered for the path. A task is submitted, and the key joins `mLoaders`, only when no loader for the same key is in flight. Nothing else changes |
| BucketSteps.GetStep | src/main/java/com/vinci/bucket/LruBucket.java:52-81 | a drawable is returned exactly when the key is loaded; a known key leaves the loaders, the executor and the bitmap pool unchanged |
| BucketSteps.GetHit | src/main/java/com/vinci/bucket/LruBucket.java:58-64 | on a loaded key: the drawable is returned, the listener gets one `onLoaded` at once, and the key becomes the most recently used. No slot changes, no load is scheduled, and nothing else changes |
| BucketSteps.GetPending | src/main/java/com/vinci/bucket/LruBucket.java:65-71 | on a pending key: `null` is returned, the listener is attached to the path, and no load is scheduled. No slot changes |
| BucketSteps.GetMiss | src/main/java/com/vinci/bucket/LruBucket.java:72-80 | on an unknown key: the key is primed as pending, and at most the eldest entry is evicted, exactly when the map is full; the evicted bitmap is on loan and goes back to the pool. A loader is in flight afterwards, submitted exactly when none was. `null` is returned |
| BucketSteps.GetKeepsInvariants | src/main/java/com/vinci/bucket/LruBucket.java:52-81 | `get` keeps the invariant and the load protocol, and a bucket that lost no bitmap loses none |
| BucketSteps.LoadFromDiskStep | src/main/java/com/vinci/bucket/LruBucket.java:93-119 | a drawable comes back exactly when the decode yields a bitmap; only the two pools change |
| BucketSteps.LoadFromDiskPools | src/main/java/com/vinci/bucket/LruBucket.java:97-116 | the raw-image loader always goes back to its pool. The bitmap taken was not on loan before. A `null` decode releases it; otherwise it stays on loan, in the drawable after a decode, with no holder after an `IOException` |
| BucketSteps.OnLoadedStep | src/main/java/com/vinci/bucket/LruBucket.java:232-248 | a null drawable is the `IllegalStateException` and changes nothing. Otherwise the drawable is stored exactly when the map still knows the key, and else its bitmap is released; never both |
| BucketSteps.OnLoadedStores | src/main/java/com/vinci/bucket/LruBucket.java:242-243 | a pending key becomes loaded with the drawable and the most recently used, no other key changes, the map keeps its size, and the map holds the new bitmap |
| BucketSteps.OnLoadedReleases | src/main/java/com/vinci/bucket/LruBucket.java:244-246 | for a key the map has dropped, the map is unchanged and the bitmap leaves the loans |
| BucketSteps.OnFailureStep | src/main/java/com/vinci/bucket/LruBucket.java:250-257 | only the map changes |
| BucketSteps.OnFailureForgets | src/main/java/com/vinci/bucket/LruBucket.java:253-256 | the key becomes unknown, no other key changes, and only the key's own bitmap leaves the map |
| BucketSteps.NotifyStep | src/main/java/com/vinci/bucket/AbstractBucket.java:152-165 | the path's listener set is removed, the other paths keep theirs, and only the listener map and the outbox change |
| BucketSteps.ExecuteStep | src/main/java/com/vinci/bucket/AbstractBucket.java:211-270 | the run's file work takes place as `execute` decides. A drawable comes back exactly when the decision reaches a decode and the decode yields a bitmap; a thrown `RuntimeException` yields none, and so does an unsized request that had to scale, whose file the scale left empty |
| BucketSteps.ExecutePools | src/main/java/com/vinci/bucket/LruBucket.java:97-116 | after a run's `execute`: the drawable's bitmap is newly on loan, and an `IOException` leaves a newly acquired bitmap on loan. Otherwise the loans are unchanged, and the loader pool is always back to no loans |
| BucketSteps.SettleStep | src/main/java/com/vinci/bucket/AbstractBucket.java:221-227 | "first notify ourselves" changes only the map and the bitmap pool, and a failure leaves the pool alone |
| BucketSteps.SettleLoaded | src/main/java/com/vinci/bucket/AbstractBucket.java:222-224 | a loaded drawable ends the key loaded if it was pending, and absent if it was dropped; no other key changes, and the balance of loans is kept |
| BucketSteps.SettleFailed | src/main/java/com/vinci/bucket/AbstractBucket.java:225-227 | a failure ends the key absent; no other key changes and no bitmap moves |
| BucketSteps.FinishStep | src/main/java/com/vinci/bucket/AbstractBucket.java:229-235 | after `notifyListeners`, the path's listeners are taken and posted only if there were any; the key leaves `mLoaders` and its task leaves the executor |
| BucketSteps.RunKeepsInvariants | src/main/java/com/vinci/bucket/AbstractBucket.java:211-236 | a loader's run keeps the invariant and the load protocol |
| BucketSteps.RunKeepsNoLeak | src/main/java/com/vinci/bucket/AbstractBucket.java:211-236 | unless the read fails after its bitmap is taken, a run loses no bitmap |
| BucketSteps.ReadFailureLeaksBitmap | src/main/java/com/vinci/bucket/LruBucket.java:99-111 | the `IOException` path leaves the bitmap it took on loan, with no entry holding it (for a file that its own scale did not truncate) |
| BucketSteps.FirstUnsizedRunYieldsNothing | src/main/java/com/vinci/bucket/LruBucket.java:186-203 | the first request for the unscaled size of a path not yet on disk yields no drawable, whatever the download, the scale and the decoder do, and hands back the bitmap it took |
| BucketSteps.RunSettlesKey | src/main/java/com/vinci/bucket/AbstractBucket.java:213-227 | a run settles its own key and no other: loaded with the drawable if it was still pending and a drawable came, and absent otherwise |
| BucketSteps.RunNotifiesWaiters | src/main/java/com/vinci/bucket/AbstractBucket.java:229-235 | a run posts one notification to the listeners waiting on its path, with its own size and drawable, and only to them. Its loader leaves the set and its task the executor |
| BucketSteps.FailedRunReloads | src/main/java/com/vinci/bucket/LruBucket.java:253-256 | after a run without a drawable, the key is unknown and its loader gone, so the next `get` is a miss that submits a fresh loader |
| BucketSteps.NoLeakLeavesRoom | src/main/java/com/vinci/bucket/LruBucket.java:47 | with no bitmap lost, the bitmap pool, one larger than the map, can always hand out a bitmap |
| BucketSteps.DeliverStep | src/main/java/com/vinci/bucket/AbstractBucket.java:182-193 | the oldest posted notification leaves the outbox, and its listeners, in registration order, are the recipients of the calls added |
| BucketSteps.Next | src/main/java/com/vinci/bucket/LruBucket.java:52-119 | one step of a history keeps the invariant and the protocol, and it is blocked exactly when a loader's bitmap acquire would wait |
| BucketSteps.NoReadFailureNeverBlocks | src/main/java/com/vinci/bucket/LruBucket.java:47-48 | a history with no failed read never blocks on the bitmap pool and loses no bitmap |
| BucketSteps.NewBucketNeverBlocks | src/main/java/com/vinci/bucket/LruBucket.java:43-50 | from a freshly constructed bucket, a history with no failed read never blocks and loses no bitmap |
| Buckets.LruBucket.constructor | src/main/java/com/vinci/bucket/AbstractBucket.java:45-85 | the object's state is `New` of the arguments: the path normalised, an empty map, a bitmap pool of capacity + 1, a raw-image loader pool and an executor of 8 |
| Buckets.LruBucket.AddListener | src/main/java/com/vinci/bucket/AbstractBucket.java:140-150 | the listener map becomes `AddListenerTo` of the old one |
| Buckets.LruBucket.Load | src/main/java/com/vinci/bucket/AbstractBucket.java:106-122 | the object moves as `LoadStep` says |
| Buckets.LruBucket.ReleaseEvicted | src/main/java/com/vinci/bucket/LruBucket.java:270-280 | the evicted entry's bitmap, if any, is released to the pool |
| Buckets.LruBucket.Get | src/main/java/com/vinci/bucket/LruBucket.java:52-81 | the object and the drawable returned are those of `GetStep` |
| Buckets.LruBucket.Precache | src/main/java/com/vinci/bucket/LruBucket.java:83-86 | `precache` is `get` with no listener |
| Buckets.LruBucket.LoadFromDisk | src/main/java/com/vinci/bucket/LruBucket.java:93-119 | the object and the drawable returned are those of `LoadFromDiskStep` |
| Buckets.LruBucket.OnLoaded | src/main/java/com/vinci/bucket/LruBucket.java:232-248 | the object and the outcome are those of `OnLoadedStep` |
| Buckets.LruBucket.OnFailure | src/main/java/com/vinci/bucket/LruBucket.java:250-257 | the object moves as `OnFailureStep` says |
| Buckets.LruBucket.NotifyListeners | src/main/java/com/vinci/bucket/AbstractBucket.java:152-165 | the object moves as `NotifyStep` says |
| Buckets.LruBucket.ExecuteTask | src/main/java/com/vinci/bucket/AbstractBucket.java:238-270 | the object and the drawable are those of `ExecuteStep` |
| Buckets.LruBucket.Settle | src/main/java/com/vinci/bucket/AbstractBucket.java:221-227 | the object moves as `SettleStep` says |
| Buckets.LruBucket.Finish | src/main/java/com/vinci/bucket/AbstractBucket.java:229-235 | the object moves as `FinishStep` says |
| Buckets.LruBucket.RunTask | src/main/java/com/vinci/bucket/AbstractBucket.java:211-236 | the object moves as `RunStep` says, so the run lemmas hold of it |
| Buckets.LruBucket.DeliverNext | src/main/java/com/vinci/bucket/AbstractBucket.java:182-193 | the object moves as `DeliverStep` says |
| Dispatch.SetAdd | src/main/java/com/vinci/bucket/AbstractBucket.java:148 | `LinkedHashSet.add`: the listener joins the end unless it is already present; earlier members keep their order and there are never duplicates |
| Dispatch.SetAddIdempotent | src/main/java/com/vinci/bucket/AbstractBucket.java:148 | adding the same listener twice is the same as adding it once |
| Dispatch.AddListenerTo | src/main/java/com/vinci/bucket/AbstractBucket.java:140-150 | the path's set is created if missing and gets the listener, keeping its earlier members in order; other paths are unchanged and registrations stay well formed |
| Dispatch.TakeListeners | src/main/java/com/vinci/bucket/AbstractBucket.java:154-160 | returns the path's listeners and removes the path's entry; other paths are unchanged |
| Dispatch.NotificationCalls | src/main/java/com/vinci/bucket/AbstractBucket.java:182-193 | one callback per listener, in registration order |
| Dispatch.RunNotification | src/main/java/com/vinci/bucket/AbstractBucket.java:182-193 | the two loops of `NotifyRunnable.run` make exactly the calls of `NotificationCalls` |
| Dispatch.ExactlyOneCallback | src/main/java/com/vinci/bucket/AbstractBucket.java:182-193 | a registered listener receives exactly one callback: `onLoaded` with the drawable when the load produced one, `onFailure` otherwise, each with the notification's path and size |
| Dispatch.ListenersAreScopedByPath | src/main/java/com/vinci/bucket/AbstractBucket.java:140-165 | two loads of one path at different sizes share one listener set: the first notification takes both listeners and the second finds none |
| Dispatch.SubmitKeepsSingleFlight | src/main/java/com/vinci/bucket/AbstractBucket.java:113-120 | submitting a loader for a key not in flight keeps exactly one executor task per loader key |
| Dispatch.CompleteKeepsSingleFlight | src/main/java/com/vinci/bucket/AbstractBucket.java:232-235 | a finished task's key is a loader key, and removing it keeps one task per key |
| LifoExecutor.Start | src/main/java/com/vinci/bucket/AbstractBucket.java:53-57 | a pool size below one is refused; otherwise the executor starts with no threads and no tasks |
| LifoExecutor.Submit | src/main/java/com/vinci/bucket/AbstractBucket.java:58-79 | the task is added. Below the pool size a new thread runs it; an idle thread takes it at once; while every thread is busy it goes to the front of the queue |
| LifoExecutor.Complete | src/main/java/com/vinci/bucket/AbstractBucket.java:58-79 | the task finishes, and its thread takes the front of the queue, the newest queued task, if there is one |
| LifoExecutor.SubmitAllWhenBusy | src/main/java/com/vinci/bucket/AbstractBucket.java:66-68 | tasks submitted while every thread is busy queue up newest first |
| LifoExecutor.ServeOrderIsQueueOrder | src/main/java/com/vinci/bucket/AbstractBucket.java:58-79 | a single thread runs its current task, then the queue from front to back |
| LifoExecutor.RequestOrdering | src/test/java/com/vinci/bucket/AbstractBucketTest.java:68-146 | with one thread, the first request runs at once and the rest are served newest first: requests 1..99 in the order 99, ..., 1 |
| DiskCache.NatToDecimalRoundTrip | src/main/java/com/vinci/bucket/AbstractBucket.java:134-136 | the decimal digits of a natural number denote that number |
| DiskCache.IntToDecimalRoundTrip | src/main/java/com/vinci/bucket/AbstractBucket.java:134-136 | `%d` of an int reads back as that int, with a sign exactly for negative numbers |
| DiskCache.SplitAtDash | src/main/java/com/vinci/bucket/AbstractBucket.java:136 | in `%d-...`, the number before the separator is determined uniquely |
| DiskCache.NormalizeCachePath | src/main/java/com/vinci/bucket/AbstractBucket.java:47-50 | the cache path ends with "/"; a path that already did is unchanged, and any other one gets exactly one "/" appended |
| DiskCache.NormalizeIdempotent | src/main/java/com/vinci/bucket/AbstractBucket.java:47-50 | normalising twice is normalising once |
| DiskCache.GetFilename | src/main/java/com/vinci/bucket/AbstractBucket.java:128-138 | a null path is the `IllegalArgumentException`; any other gets a name inside the cache directory ending in ".jpg" |
| DiskCache.FileNameInjective | src/main/java/com/vinci/bucket/AbstractBucket.java:133-137 | for one remote path, two sizes get the same file name exactly when they are the same size |
| DiskCache.UnsizedIsRaw | src/main/java/com/vinci/bucket/AbstractBucket.java:133-134 | the unscaled name is used exactly when width and height are both `NO_SIZE` |
| DiskCache.FetchRaw | src/main/java/com/vinci/bucket/AbstractBucket.java:250-256 | the download runs only when the raw file is missing, and the file exists afterwards exactly when the save succeeded |
| DiskCache.Execute | src/main/java/com/vinci/bucket/AbstractBucket.java:238-270 | an existing scaled file is only loaded. Otherwise the download is tried only when the raw file is missing, and the scale runs only when the raw file exists afterwards. A decode happens, of the scaled file and as the last call, only after a hit or a successful scale. The failed rename throws, and files are only ever added |
| DiskCache.NothingCachedFetchFails | src/main/java/com/vinci/bucket/AbstractBucket.java:250-269 | with nothing on disk and a failed download, only the download is attempted and nothing is decoded |
| DiskCache.RawCachedIsScaled | src/main/java/com/vinci/bucket/AbstractBucket.java:258-263 | a raw file without a scaled one is scaled, then the scaled file is loaded, with no download |
| DiskCache.ScaledFileIsReused | src/main/java/com/vinci/bucket/AbstractBucket.java:242-248 | the scaled file a run leaves behind is loaded directly by the next run for the same key |
| DiskCache.UnsizedScalesOntoItself | src/main/java/com/vinci/bucket/AbstractBucket.java:250-263 | for the unscaled size, the scale's source and destination are the same file, so the copy truncates it (the consequence is `FirstUnsizedRunYieldsNothing`) |
| RawImage.RawImageLoader.constructor | src/main/java/com/vinci/bucket/LruBucket.java:370-376 | no buffer and a length of 0 |
| RawImage.RawImageLoader.Load | src/main/java/com/vinci/bucket/LruBucket.java:378-401 | an empty file gives no bitmap and a length of 0, and leaves an existing buffer as it was. Otherwise the buffer is replaced by one of exactly the file's length when it is missing or too short, and is kept with everything past the file zeroed when it is long enough; the decoder gets exactly the file's bytes |

## Left out

- Threads and `synchronized`. Each loader run is one atomic step, and so are `get`, `onLoaded` and a delivery. Interleavings inside a step, `InterruptedException` and the unsynchronised `mLoaders.remove(this)` are not modelled. A blocking `take` is the precondition `CanAcquire`, or the end of a history as `Blocked`.
- `destroy` (`shutdownNow`), and the executor's keep-alive time, which has no effect because the core and maximum sizes are equal.
- `Handler`/`Looper`: a post is an append to the outbox, and the main thread runs the oldest notification in `DeliverStep`.
- `saveFromWeb`, `scale` and `IoUtil`, which are HTTP and stream I/O. Their outcomes are the parameters `FetchOutcome` and `ScaleOutcome`, and their effect is a file name added to the set of existing files.
- `BitmapFactory.decodeByteArray`, `BitmapDrawable`, `BitmapPool.produce` and the file read. A decode is the outcome `DecodeOutcome`, and the bitmap it returns is taken to be the pool's `inBitmap`.
- BucketSteps.LoadFromDiskStep: decodes by outcome and does not call `RawImageLoader.Load`. That method is modelled on its own, over the file's bytes.
- `String.hashCode`, `generateKeyHashCode` and `generateLoaderHashCode` depend on 32-bit wrap-around, and equality does not depend on them. The path hash is a function parameter, and keys are compared by their fields.
- RawImage.RawImageLoader.Load: requires the file to be at most `Integer.MAX_VALUE` bytes, so the `(int) raf.length()` cast never truncates. A `readFully` that hits the end of the file is not modelled.
- `mkdirs` in the constructor, the map's load factor, `prefetch` (a stub that returns `null`), `BufferPool`, used only inside `saveFromWeb` and `scale`, which are not modelled, `FileUtil`, `MutableCanvas`, `Palette`, `Vinci` and logging.
- Null arguments. A null remote path is modelled only in `GetFilename`; a null drawable only in `onLoaded`.
- Aliasing. The bucket holds its two pools as `PoolState` values rather than as `BlockingPool` objects. `BlockingPool` is proved equal to the same steps, but sharing a pool object between owners is not modelled.
- Buckets.LruBucket.Get: this and the other bucket methods state only the step they take. The invariants, the load protocol and the no-leak balance are proved once, about the steps, in `BucketSteps`.
- LifoExecutor.ServeOrderIsQueueOrder: this and `ServeOrder` describe a single worker thread only, as in the request-ordering test.
- The `IOException` path of `loadFromDisk` does not release the bitmap it took. The model keeps this behaviour, and `ReadFailureLeaksBitmap` proves the leak, so the no-leak results require histories without a failed read.
- BucketSteps.NoLeakLeavesRoom: this, `NoReadFailureNeverBlocks` and `NewBucketNeverBlocks` hold for runs taken one at a time. In the source up to 8 loaders decode at once, and each holds a bitmap from its `acquire` until `onLoaded` settles it. With capacity 1, for example, the pool has 2 bitmaps and a third concurrent miss waits in `acquire`. A decoder `RuntimeException` leaks the bitmap like an `IOException`; both are `ReadFailed`, and these results assume neither happens.
- BucketSteps.RunDecode: file contents are not modelled, only which files exist. A truncated raw file left behind by an unsized request that scaled is empty, but the later requests that copy and decode it still get a free `DecodeOutcome`. Likewise, a `scale` that fails after opening its destination is not modelled as truncating it.
