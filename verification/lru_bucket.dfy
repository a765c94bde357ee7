/**
 * `LruBucket` as an object, with the fields it inherits from `AbstractBucket`: the
 * access-ordered map of drawables, the pool of bitmaps they are decoded into, the pool of
 * raw-image loaders, the loaders in flight, the listeners, the executor and the posted
 * notifications, each updated in place. Every method is proved to take the object from the
 * state `Model()` describes to the one the matching step of `BucketSteps` computes, so the
 * properties proved there about the steps hold of the object.
 */
module Buckets {
  import opened Wrappers
  import opened Keys
  import opened ObjectPool
  import opened LruMap
  import opened DiskCache
  import opened LifoExecutor
  import opened Dispatch
  import opened BucketSteps

  class LruBucket {
    const capacity: nat
    /** `mCachePath`, ending in "/". */
    const cachePath: string
    /** `String.hashCode`, which the file names use. */
    const pathHash: string -> int
    /** `mLruCache`, least recently used first. */
    var cache: seq<Entry>
    /** `mBitmapPool`, one bitmap larger than the map. */
    var bitmaps: PoolState
    /** `mRawImageLoaderPool`; a handle stands for a `RawImageLoader`. */
    var rawLoaders: PoolState
    /** `mLoaders`: the keys of the loaders submitted and not yet finished. */
    var loaders: set<Key>
    var executor: Executor
    /** `mListenerMap`. */
    var listeners: map<string, seq<ListenerId>>
    /** The notifications posted to the main thread and not yet run. */
    var outbox: seq<Notification>
    /** The cache files that exist. */
    var disk: set<string>
    /** The callbacks made on listeners so far, synchronous and posted. */
    var delivered: seq<Callback>

    /** The state of the object as a value. */
    function Model(): Bucket
      reads this
    {
      Bucket(capacity, cachePath, cache, bitmaps, rawLoaders, loaders, executor, listeners, outbox, disk, delivered)
    }

    /** The constructors of `LruBucket` and `AbstractBucket`. */
    constructor(cachePath: string, capacity: nat, pathHash: string -> int, disk: set<string>)
      ensures Model() == New(cachePath, capacity, disk) && this.pathHash == pathHash
    {
      this.capacity := capacity;
      this.cachePath := NormalizeCachePath(cachePath);
      this.pathHash := pathHash;
      cache := [];
      bitmaps := Fresh(capacity + 1);
      rawLoaders := Fresh(THREAD_POOL_SIZE);
      loaders := {};
      executor := Start(THREAD_POOL_SIZE).value;
      listeners := map[];
      outbox := [];
      this.disk := disk;
      delivered := [];
    }

    /** `addListener`. */
    method AddListener(path: string, l: ListenerId)
      modifies this`listeners
      ensures listeners == AddListenerTo(old(listeners), path, l)
    {
      listeners := AddListenerTo(listeners, path, l);
    }

    /** `load`. */
    method Load(path: string, width: int, height: int, listener: Option<ListenerId>)
      requires LifoExecutor.Valid(executor)
      modifies this`listeners, this`loaders, this`executor
      ensures Model() == LoadStep(old(Model()), path, width, height, listener)
    {
      if listener.Some? {
        AddListener(path, listener.value);
      }
      var k := Key(path, width, height);
      if k in loaders {
        return;
      }
      loaders := loaders + {k};
      executor := Submit(executor, k);
    }

    /** The eviction half of `removeEldestEntry`: a loaded evicted entry's bitmap goes back. */
    method ReleaseEvicted(evicted: Option<Entry>)
      modifies this`bitmaps
      ensures bitmaps == ReleaseEvictedStep(old(bitmaps), evicted)
    {
      var evictedBitmaps := EvictedBitmaps(evicted);
      if evictedBitmaps != [] {
        bitmaps := ReleaseStep(bitmaps, evictedBitmaps[0]).0;
      }
    }

    /** `get`, with the `load` it requests for an unknown key. */
    method Get(path: string, width: int, height: int, listener: Option<ListenerId>) returns (d: Option<Drawable>)
      requires LifoExecutor.Valid(executor)
      modifies this`cache, this`delivered, this`bitmaps, this`listeners, this`loaders, this`executor
      ensures (Model(), d) == GetStep(old(Model()), path, width, height, listener)
    {
      ghost var r := GetStep(Model(), path, width, height, listener);
      var k := Key(path, width, height);
      var slot := Lookup(cache, k);
      if slot.Resolved? {
        cache := Touch(cache, k);
        if listener.Some? {
          delivered := delivered + [OnLoadedCall(listener.value, path, slot.drawable, width, height)];
        } else {
          assert old(delivered) + [] == delivered;
        }
        d := Some(slot.drawable);
        assert (Model(), d) == r;
      } else if slot.Pending? {
        cache := Touch(cache, k);
        if listener.Some? {
          AddListener(path, listener.value);
        }
        d := None;
        assert (Model(), d) == r;
      } else {
        var (cache', evicted) := Put(cache, k, None, capacity);
        ghost var primed := Model().(cache := cache', bitmaps := ReleaseEvictedStep(bitmaps, evicted));
        assert r == (LoadStep(primed, path, width, height, listener), None);
        cache := cache';
        ReleaseEvicted(evicted);
        assert Model() == primed;
        Load(path, width, height, listener);
        d := None;
        assert (Model(), d) == r;
      }
    }

    /** `precache`: a `get` without a listener. */
    method Precache(path: string, width: int, height: int) returns (d: Option<Drawable>)
      requires LifoExecutor.Valid(executor)
      modifies this`cache, this`delivered, this`bitmaps, this`listeners, this`loaders, this`executor
      ensures (Model(), d) == GetStep(old(Model()), path, width, height, None)
    {
      d := Get(path, width, height, None);
    }

    /** `loadFromDisk`, given what the platform decoder makes of the file. */
    method LoadFromDisk(decode: DecodeOutcome) returns (d: Option<Drawable>)
      requires CanAcquire(rawLoaders) && CanAcquire(bitmaps)
      modifies this`bitmaps, this`rawLoaders
      ensures (Model(), d) == LoadFromDiskStep(old(Model()), decode)
    {
      var loader, bitmap;
      rawLoaders, loader := AcquireStep(rawLoaders).0, AcquireStep(rawLoaders).1;
      bitmaps, bitmap := AcquireStep(bitmaps).0, AcquireStep(bitmaps).1;
      if decode == DecodedNull {
        bitmaps := ReleaseStep(bitmaps, bitmap).0;
        d := None;
      } else if decode == Decoded {
        d := Some(Drawable(bitmap));
      } else {
        d := None;
      }
      rawLoaders := ReleaseStep(rawLoaders, loader).0;
    }

    /** `onLoaded`. */
    method OnLoaded(path: string, width: int, height: int, drawable: Option<Drawable>) returns (outcome: LoadedOutcome)
      modifies this`cache, this`bitmaps
      ensures (Model(), outcome) == OnLoadedStep(old(Model()), path, width, height, drawable)
    {
      if drawable.None? {
        return NullDrawable;
      }
      var k := Key(path, width, height);
      if Lookup(cache, k) != Absent {
        cache := Put(cache, k, drawable, capacity).0;
        return Stored;
      }
      bitmaps := ReleaseStep(bitmaps, drawable.value.bitmap).0;
      outcome := BitmapReleased;
    }

    /** `onFailure`. */
    method OnFailure(path: string, width: int, height: int)
      modifies this`cache
      ensures Model() == OnFailureStep(old(Model()), path, width, height)
    {
      cache := Remove(cache, Key(path, width, height));
    }

    /** `notifyListeners`. */
    method NotifyListeners(path: string, drawable: Option<Drawable>, width: int, height: int)
      modifies this`listeners, this`outbox
      ensures Model() == NotifyStep(old(Model()), path, drawable, width, height)
    {
      var (rest, taken) := TakeListeners(listeners, path);
      listeners := rest;
      if taken != [] {
        outbox := outbox + [Notification(path, drawable, width, height, taken)];
      }
    }

    /**
     * `LoaderRunnable.execute` of the `i`th busy thread with the `loadFromDisk` it ends in,
     * given the outcomes of the download, the scale and the decode.
     */
    method ExecuteTask(i: nat, fetch: FetchOutcome, scale: ScaleOutcome, decode: DecodeOutcome) returns (drawable: Option<Drawable>)
      requires Runnable(Model()) && i < |executor.running|
      requires RunDecodes(Model(), i, pathHash, fetch, scale) ==> CanAcquire(bitmaps)
      modifies this`disk, this`bitmaps, this`rawLoaders
      ensures (Model(), drawable) == ExecuteStep(old(Model()), i, pathHash, fetch, scale, decode)
    {
      var k := executor.running[i];
      var e := Execute(disk, cachePath, k.path, pathHash, k.width, k.height, fetch, scale);
      disk := e.files;
      drawable := None;
      if !e.threw && e.decode.Some? {
        // an unsized request that had to scale copied its raw file onto itself, leaving it empty
        var truncated := k.width == NO_SIZE && k.height == NO_SIZE && Scales(e.calls);
        drawable := LoadFromDisk(if truncated then DecodedNull else decode);
      }
    }

    /** "First notify ourselves": `onLoaded` with a drawable, `onFailure` without one. */
    method Settle(k: Key, drawable: Option<Drawable>)
      modifies this`cache, this`bitmaps
      ensures Model() == SettleStep(old(Model()), k, drawable)
    {
      if drawable.Some? {
        var _ := OnLoaded(k.path, k.width, k.height, drawable);
      } else {
        OnFailure(k.path, k.width, k.height);
      }
    }

    /** The end of `LoaderRunnable.run`: `notifyListeners`, then the loader and its thread are freed. */
    method Finish(k: Key, i: nat, drawable: Option<Drawable>)
      requires LifoExecutor.Valid(executor) && i < |executor.running|
      modifies this`listeners, this`outbox, this`loaders, this`executor
      ensures Model() == FinishStep(old(Model()), k, i, drawable)
    {
      NotifyListeners(k.path, drawable, k.width, k.height);
      loaders := loaders - {k};
      executor := Complete(executor, i);
    }

    /**
     * `LoaderRunnable.run` of the `i`th busy thread, given the outcomes of the download,
     * the scale and the decode; the bitmap acquire must not block.
     */
    method RunTask(i: nat, fetch: FetchOutcome, scale: ScaleOutcome, decode: DecodeOutcome)
      requires Runnable(Model()) && i < |executor.running|
      requires RunDecodes(Model(), i, pathHash, fetch, scale) ==> CanAcquire(bitmaps)
      modifies this
      ensures Model() == RunStep(old(Model()), i, pathHash, fetch, scale, decode)
    {
      var k := executor.running[i];
      var drawable := ExecuteTask(i, fetch, scale, decode);
      Settle(k, drawable);
      Finish(k, i, drawable);
    }

    /** The main thread runs the oldest posted `NotifyRunnable`, if there is one. */
    method DeliverNext()
      modifies this`delivered, this`outbox
      ensures Model() == DeliverStep(old(Model()))
    {
      if outbox != [] {
        var calls := RunNotification(outbox[0]);
        outbox := outbox[1..];
        delivered := delivered + calls;
      }
    }
  }
}
