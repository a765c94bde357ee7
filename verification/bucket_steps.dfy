/**
 * The state of an `LruBucket` between two steps, as a value, and every step of the bucket
 * as a function of it: `get`, the `load` it requests, a loader's `run` with its
 * `loadFromDisk`, `onLoaded`, `onFailure` and `notifyListeners`, and the main thread
 * running one posted notification. A loader's `run` is one atomic step; the disk is the
 * set of cache files that exist.
 */
module BucketSteps {
  import opened Wrappers
  import opened Keys
  import opened Collections
  import opened ObjectPool
  import opened LruMap
  import opened DiskCache
  import opened LifoExecutor
  import opened Dispatch

  /** The size of the executor and of the raw-image loader pool. */
  const THREAD_POOL_SIZE: int := 8

  /**
   * What the platform decoder made of a file: a bitmap, `null`, or an exception. `ReadFailed`
   * stands both for an `IOException`, which `loadFromDisk` catches, and for a
   * `RuntimeException` of the decoder, which `run` catches; either way no drawable comes back
   * and the bitmap taken for the decode is not handed back.
   */
  datatype DecodeOutcome = Decoded | DecodedNull | ReadFailed

  /** How `onLoaded` ended: stored in the map, handed back to the pool, or the null-drawable error. */
  datatype LoadedOutcome = Stored | BitmapReleased | NullDrawable

  datatype Bucket = Bucket(
    capacity: nat,
    /** `mCachePath`. */
    cachePath: string,
    /** `mLruCache`, least recently used first. */
    cache: seq<Entry>,
    /** `mBitmapPool`. */
    bitmaps: PoolState,
    /** `mRawImageLoaderPool`; a handle stands for a `RawImageLoader`. */
    rawLoaders: PoolState,
    /** `mLoaders`: the keys of the loaders submitted and not yet finished. */
    loaders: set<Key>,
    executor: Executor,
    /** `mListenerMap`. */
    listeners: map<string, seq<ListenerId>>,
    /** The notifications posted to the main thread and not yet run. */
    outbox: seq<Notification>,
    /** The cache files that exist. */
    disk: set<string>,
    /** The calls made on listeners so far. */
    delivered: seq<Callback>)

  /**
   * What every step keeps: both pools are well formed, the bitmap pool is one larger than
   * the map and no raw-image loader is on loan between steps; the map has distinct keys
   * and at most `capacity` entries; every bitmap the map holds is on loan and held by one
   * entry only; each loader in flight is exactly one task of the executor; the
   * registrations are well formed and the cache path ends in "/".
   */
  ghost predicate Inv(b: Bucket)
  {
    && Invariant(b.bitmaps) && b.bitmaps.capacity == b.capacity + 1
    && Invariant(b.rawLoaders) && b.rawLoaders.capacity == THREAD_POOL_SIZE && b.rawLoaders.acquired == {}
    && DistinctKeys(b.cache) && |b.cache| <= b.capacity
    && multiset(Held(b.cache)) <= multiset(b.bitmaps.acquired)
    && Runnable(b) && b.executor.poolSize == THREAD_POOL_SIZE
    && SingleFlight(b.executor, b.loaders)
    && Registrations(b.listeners)
    && EndsWithSlash(b.cachePath)
  }

  /**
   * A loader can run: the executor is well formed and the raw-image loader pool, as large
   * as the thread pool, always has one free for the running thread.
   */
  predicate Runnable(b: Bucket)
  {
    LifoExecutor.Valid(b.executor) && CanAcquire(b.rawLoaders)
  }

  /**
   * The load protocol: a pending entry always has its loader in flight, and a key whose
   * loader is in flight is never already loaded.
   */
  ghost predicate Protocol(b: Bucket)
  {
    && (forall k :: Lookup(b.cache, k) == Pending ==> k in b.loaders)
    && (forall k | k in b.loaders :: !Lookup(b.cache, k).Resolved?)
  }

  /** No bitmap is lost: the bitmaps on loan are exactly those the map holds. */
  predicate NoLeak(b: Bucket)
  {
    multiset(Held(b.cache)) == multiset(b.bitmaps.acquired)
  }

  /** The constructors of `LruBucket` and `AbstractBucket`. */
  function New(cachePath: string, capacity: nat, disk: set<string>): (b: Bucket)
    ensures Inv(b) && Protocol(b) && NoLeak(b)
    ensures b.cachePath == NormalizeCachePath(cachePath)
  {
    Bucket(capacity, NormalizeCachePath(cachePath), [], Fresh(capacity + 1), Fresh(THREAD_POOL_SIZE),
           {}, Start(THREAD_POOL_SIZE).value, map[], [], disk, [])
  }

  /** The registration of an optional listener: `null` registers nothing. */
  function Register(m: map<string, seq<ListenerId>>, path: string, listener: Option<ListenerId>): map<string, seq<ListenerId>>
  {
    if listener.Some? then AddListenerTo(m, path, listener.value) else m
  }

  // ---------------------------------------------------------------------------------------
  // get and load.

  /**
   * `load`: a given listener is registered for the path; a loader is submitted only if no
   * loader for the same key is in flight.
   */
  function LoadStep(b: Bucket, path: string, width: int, height: int, listener: Option<ListenerId>): (r: Bucket)
    requires LifoExecutor.Valid(b.executor)
    ensures r.loaders == b.loaders + {Key(path, width, height)}
    ensures Key(path, width, height) in b.loaders ==> r.executor == b.executor
    ensures Key(path, width, height) !in b.loaders ==> Tasks(r.executor) == Tasks(b.executor) + multiset{Key(path, width, height)}
    ensures listener.Some? ==> path in r.listeners && listener.value in r.listeners[path]
    ensures r == b.(listeners := r.listeners, loaders := r.loaders, executor := r.executor)
  {
    var k := Key(path, width, height);
    var m := Register(b.listeners, path, listener);
    if k in b.loaders then b.(listeners := m)
    else b.(listeners := m, loaders := b.loaders + {k}, executor := Submit(b.executor, k))
  }

  /** The pool after an eviction: the evicted entry's bitmap, if any, is released. */
  function ReleaseEvictedStep(s: PoolState, evicted: Option<Entry>): PoolState
  {
    if EvictedBitmaps(evicted) != [] then ReleaseStep(s, EvictedBitmaps(evicted)[0]).0 else s
  }

  /**
   * `get`: a loaded key is returned and reported to the listener at once; a pending key
   * gets the listener attached; an unknown key is primed with a pending entry, which may
   * evict the eldest, and a load is requested. A known key becomes the most recently used.
   */
  function GetStep(b: Bucket, path: string, width: int, height: int, listener: Option<ListenerId>): (r: (Bucket, Option<Drawable>))
    requires LifoExecutor.Valid(b.executor)
    ensures var slot := Lookup(b.cache, Key(path, width, height));
      && (r.1.Some? <==> slot.Resolved?)
      && (r.1.Some? ==> r.1.value == slot.drawable)
    ensures Lookup(b.cache, Key(path, width, height)) != Absent ==>
      r.0.loaders == b.loaders && r.0.executor == b.executor && r.0.bitmaps == b.bitmaps
  {
    var k := Key(path, width, height);
    var slot := Lookup(b.cache, k);
    if slot.Resolved? then
      var calls := if listener.Some? then [OnLoadedCall(listener.value, path, slot.drawable, width, height)] else [];
      (b.(cache := Touch(b.cache, k), delivered := b.delivered + calls), Some(slot.drawable))
    else if slot.Pending? then
      (b.(cache := Touch(b.cache, k), listeners := Register(b.listeners, path, listener)), None)
    else
      var (cache', evicted) := Put(b.cache, k, None, b.capacity);
      var primed := b.(cache := cache', bitmaps := ReleaseEvictedStep(b.bitmaps, evicted));
      (LoadStep(primed, path, width, height, listener), None)
  }

  /**
   * A hit on a loaded key: its drawable is returned, the listener gets exactly one
   * `onLoaded` at once, the key becomes the most recently used, no key changes its value,
   * and nothing else changes.
   */
  lemma GetHit(b: Bucket, path: string, width: int, height: int, listener: Option<ListenerId>)
    requires Inv(b) && Lookup(b.cache, Key(path, width, height)).Resolved?
    ensures var k := Key(path, width, height); var d := Lookup(b.cache, k).drawable;
      var r := GetStep(b, path, width, height, listener);
      && r.1 == Some(d)
      && |r.0.cache| == |b.cache| && r.0.cache[|b.cache| - 1].key == k
      && (forall k' :: Lookup(r.0.cache, k') == Lookup(b.cache, k'))
      && r.0.delivered == b.delivered + (if listener.Some? then [OnLoadedCall(listener.value, path, d, width, height)] else [])
      && r.0 == b.(cache := r.0.cache, delivered := r.0.delivered)
  {
    TouchFacts(b.cache, Key(path, width, height));
  }

  /**
   * A hit on a pending key: nothing is returned, the listener waits for the load already in
   * flight, no second load is requested, and no key changes its value.
   */
  lemma GetPending(b: Bucket, path: string, width: int, height: int, listener: Option<ListenerId>)
    requires Inv(b) && Lookup(b.cache, Key(path, width, height)) == Pending
    ensures var k := Key(path, width, height);
      var r := GetStep(b, path, width, height, listener);
      && r.1 == None
      && |r.0.cache| == |b.cache| && r.0.cache[|b.cache| - 1].key == k
      && (forall k' :: Lookup(r.0.cache, k') == Lookup(b.cache, k'))
      && (listener.Some? ==> path in r.0.listeners && listener.value in r.0.listeners[path])
      && r.0 == b.(cache := r.0.cache, listeners := r.0.listeners)
  {
    TouchFacts(b.cache, Key(path, width, height));
  }

  /**
   * A miss: nothing is returned, the key is primed as pending (unless the map has no room
   * at all), at most the eldest entry is evicted and its bitmap, which is on loan, goes
   * back to the pool, and a loader for the key is in flight afterwards, submitted now
   * exactly when none was.
   */
  lemma GetMiss(b: Bucket, path: string, width: int, height: int, listener: Option<ListenerId>)
    requires Inv(b) && Lookup(b.cache, Key(path, width, height)) == Absent
    ensures var k := Key(path, width, height);
      var r := GetStep(b, path, width, height, listener);
      var evicted := Put(b.cache, k, None, b.capacity).1;
      && r.1 == None
      && r.0.cache == Put(b.cache, k, None, b.capacity).0
      && (b.capacity > 0 ==> Lookup(r.0.cache, k) == Pending)
      && (forall k' | k' != k :: Lookup(r.0.cache, k') == Lookup(b.cache, k') || Lookup(r.0.cache, k') == Absent)
      && (evicted.Some? <==> |b.cache| == b.capacity)
      && (forall h | h in EvictedBitmaps(evicted) :: h in b.bitmaps.acquired)
      && r.0.bitmaps == ReleaseEvictedStep(b.bitmaps, evicted)
      && k in r.0.loaders
      && (k !in b.loaders ==> Tasks(r.0.executor) == Tasks(b.executor) + multiset{k})
      && (k in b.loaders ==> r.0.executor == b.executor)
      && r.0.delivered == b.delivered && r.0.outbox == b.outbox && r.0.disk == b.disk
  {
    var k := Key(path, width, height);
    forall k' | k' != k
      ensures Lookup(Put(b.cache, k, None, b.capacity).0, k') == Lookup(b.cache, k') || Lookup(Put(b.cache, k, None, b.capacity).0, k') == Absent
    {
      PutOtherSlot(b.cache, k, None, b.capacity, k');
    }
    EvictedOnLoan(b, k);
  }

  /** The bitmap of an entry a new key evicts is on loan. */
  lemma EvictedOnLoan(b: Bucket, k: Key)
    requires Inv(b) && Lookup(b.cache, k) == Absent
    ensures forall h | h in EvictedBitmaps(Put(b.cache, k, None, b.capacity).1) :: h in b.bitmaps.acquired
    ensures var r := Put(b.cache, k, None, b.capacity);
      multiset(Held(r.0)) + multiset(EvictedBitmaps(r.1)) == multiset(Held(b.cache))
  {
    PrimeHeld(b.cache, k, b.capacity);
    var r := Put(b.cache, k, None, b.capacity);
    forall h | h in EvictedBitmaps(r.1) ensures h in b.bitmaps.acquired {
      assert multiset(EvictedBitmaps(r.1))[h] > 0;
      assert multiset(Held(b.cache))[h] > 0;
      assert multiset(b.bitmaps.acquired)[h] > 0;
    }
  }

  /** Priming a new key with a pending entry takes out only the evicted entry's bitmap. */
  lemma PrimeHeld(s: seq<Entry>, k: Key, capacity: nat)
    requires DistinctKeys(s) && Lookup(s, k) == Absent
    ensures var r := Put(s, k, None, capacity);
      multiset(Held(r.0)) + multiset(EvictedBitmaps(r.1)) == multiset(Held(s))
  {
    PutHeld(s, k, None, capacity);
    var r := Put(s, k, None, capacity);
    var none: Option<Drawable> := None;
    assert SlotBitmaps(Lookup(s, k)) == [];
    assert SlotBitmaps(SlotOf(none)) == [];
    assert multiset(SlotBitmaps(Lookup(s, k))) == multiset{} && multiset(SlotBitmaps(SlotOf(none))) == multiset{};
    assert multiset(Held(r.0)) + multiset{} + multiset(EvictedBitmaps(r.1)) == multiset(Held(s)) + multiset{};
    assert multiset(Held(r.0)) + multiset{} == multiset(Held(r.0));
    assert multiset(Held(s)) + multiset{} == multiset(Held(s));
  }

  /** Releasing the one bitmap of an evicted entry, on loan, keeps the bitmaps balanced. */
  lemma ReleaseEvictedBalance(s: PoolState, evicted: Option<Entry>)
    requires Invariant(s) && forall h | h in EvictedBitmaps(evicted) :: h in s.acquired
    ensures Invariant(ReleaseEvictedStep(s, evicted)) && ReleaseEvictedStep(s, evicted).capacity == s.capacity
    ensures multiset(ReleaseEvictedStep(s, evicted).acquired) + multiset(EvictedBitmaps(evicted)) == multiset(s.acquired)
  {
    var bs := EvictedBitmaps(evicted);
    if bs != [] {
      var h := bs[0];
      assert bs == [h];
      assert s.acquired == (s.acquired - {h}) + {h};
    }
  }

  /** `get` keeps the invariant and the load protocol, and loses no bitmap. */
  lemma GetKeepsInvariants(b: Bucket, path: string, width: int, height: int, listener: Option<ListenerId>)
    requires Inv(b) && Protocol(b)
    ensures var r := GetStep(b, path, width, height, listener).0;
      Inv(r) && Protocol(r) && (NoLeak(b) ==> NoLeak(r))
  {
    var k := Key(path, width, height);
    if Lookup(b.cache, k) != Absent {
      TouchFacts(b.cache, k);
      assert GetStep(b, path, width, height, listener).0.cache == Touch(b.cache, k);
    } else {
      MissKeepsInvariant(b, path, width, height, listener);
      MissKeepsProtocol(b, path, width, height, listener);
    }
  }

  lemma MissKeepsInvariant(b: Bucket, path: string, width: int, height: int, listener: Option<ListenerId>)
    requires Inv(b) && Lookup(b.cache, Key(path, width, height)) == Absent
    ensures var r := GetStep(b, path, width, height, listener).0;
      Inv(r) && (NoLeak(b) ==> NoLeak(r))
  {
    var k := Key(path, width, height);
    var r := GetStep(b, path, width, height, listener).0;
    GetMiss(b, path, width, height, listener);
    var (cache', evicted) := Put(b.cache, k, None, b.capacity);
    EvictedOnLoan(b, k);
    ReleaseEvictedBalance(b.bitmaps, evicted);
    if k !in b.loaders {
      SubmitKeepsSingleFlight(b.executor, b.loaders, k);
    }
    MultisetCancel(multiset(Held(cache')), multiset(r.bitmaps.acquired), multiset(EvictedBitmaps(evicted)),
                   multiset(Held(b.cache)), multiset(b.bitmaps.acquired));
  }

  lemma MissKeepsProtocol(b: Bucket, path: string, width: int, height: int, listener: Option<ListenerId>)
    requires Inv(b) && Protocol(b) && Lookup(b.cache, Key(path, width, height)) == Absent
    ensures Protocol(GetStep(b, path, width, height, listener).0)
  {
    var k := Key(path, width, height);
    GetMiss(b, path, width, height, listener);
    PrimeKeepsProtocol(b.cache, b.loaders, k, b.capacity);
  }

  /** Priming a new key while its loader joins the set keeps the load protocol. */
  lemma PrimeKeepsProtocol(cache: seq<Entry>, loaders: set<Key>, k: Key, capacity: nat)
    requires DistinctKeys(cache) && |cache| <= capacity && Lookup(cache, k) == Absent
    requires forall k' :: Lookup(cache, k') == Pending ==> k' in loaders
    requires forall k' | k' in loaders :: !Lookup(cache, k').Resolved?
    ensures var c := Put(cache, k, None, capacity).0;
      && (forall k' :: Lookup(c, k') == Pending ==> k' in loaders + {k})
      && (forall k' | k' in loaders + {k} :: !Lookup(c, k').Resolved?)
  {
    var c := Put(cache, k, None, capacity).0;
    forall k' | k' != k
      ensures Lookup(c, k') == Lookup(cache, k') || Lookup(c, k') == Absent
    {
      PutOtherSlot(cache, k, None, capacity, k');
    }
    if capacity == 0 {
      assert cache == [];
      assert c == [];
    }
  }

  /** Taking the same amount from both sides of a balance or an inclusion keeps it. */
  lemma MultisetCancel<T>(a: multiset<T>, b: multiset<T>, x: multiset<T>, a0: multiset<T>, b0: multiset<T>)
    requires a + x == a0 && b + x == b0
    ensures a0 <= b0 ==> a <= b
    ensures a0 == b0 ==> a == b
  {
    if a0 <= b0 {
      forall t ensures a[t] <= b[t] {
        assert a[t] + x[t] == a0[t] && b[t] + x[t] == b0[t];
      }
    }
    if a0 == b0 {
      forall t ensures a[t] == b[t] {
        assert a[t] + x[t] == a0[t] && b[t] + x[t] == b0[t];
      }
    }
  }

  // ---------------------------------------------------------------------------------------
  // A loader's run.

  /**
   * `loadFromDisk`: a raw-image loader and a bitmap are taken from their pools and the file
   * is decoded into the bitmap; a decode to `null` hands the bitmap back, an `IOException`
   * does not; the loader always goes back.
   */
  function LoadFromDiskStep(b: Bucket, decode: DecodeOutcome): (r: (Bucket, Option<Drawable>))
    requires CanAcquire(b.rawLoaders) && CanAcquire(b.bitmaps)
    ensures r.1.Some? <==> decode == Decoded
    ensures r.0 == b.(rawLoaders := r.0.rawLoaders, bitmaps := r.0.bitmaps)
  {
    var (rawLoaders', loader) := AcquireStep(b.rawLoaders);
    var (bitmaps', bitmap) := AcquireStep(b.bitmaps);
    var returned := ReleaseStep(rawLoaders', loader).0;
    match decode
    case Decoded => (b.(rawLoaders := returned, bitmaps := bitmaps'), Some(Drawable(bitmap)))
    case DecodedNull => (b.(rawLoaders := returned, bitmaps := ReleaseStep(bitmaps', bitmap).0), None)
    case ReadFailed => (b.(rawLoaders := returned, bitmaps := bitmaps'), None)
  }

  /**
   * What `loadFromDisk` does to the pools: the loader is back and none is on loan; the
   * bitmap taken is one not on loan before; it is handed back after a `null` decode and
   * stays on loan otherwise, in the drawable after a decode and lost after an
   * `IOException`.
   */
  lemma LoadFromDiskPools(b: Bucket, decode: DecodeOutcome)
    requires Invariant(b.rawLoaders) && b.rawLoaders.acquired == {} && CanAcquire(b.rawLoaders)
    requires Invariant(b.bitmaps) && CanAcquire(b.bitmaps)
    ensures var r := LoadFromDiskStep(b, decode); var h := AcquireStep(b.bitmaps).1;
      && Invariant(r.0.rawLoaders) && r.0.rawLoaders.acquired == {} && r.0.rawLoaders.capacity == b.rawLoaders.capacity
      && Invariant(r.0.bitmaps) && r.0.bitmaps.capacity == b.bitmaps.capacity
      && h !in b.bitmaps.acquired
      && (decode == DecodedNull ==> r.0.bitmaps.acquired == b.bitmaps.acquired)
      && (decode != DecodedNull ==> r.0.bitmaps.acquired == b.bitmaps.acquired + {h})
      && (r.1.Some? ==> r.1.value == Drawable(h))
  {
    var (rawLoaders', loader) := AcquireStep(b.rawLoaders);
    var (bitmaps', h) := AcquireStep(b.bitmaps);
    assert ReleaseStep(rawLoaders', loader).1 == Released;
    if decode == DecodedNull {
      assert ReleaseStep(bitmaps', h).1 == Released;
    }
  }

  /**
   * `onLoaded`: a null drawable is refused; the drawable of a key the map still knows
   * replaces its value, and that of a key the map has dropped meanwhile goes back to the
   * pool.
   */
  function OnLoadedStep(b: Bucket, path: string, width: int, height: int, drawable: Option<Drawable>): (r: (Bucket, LoadedOutcome))
    ensures r.1 == NullDrawable <==> drawable.None?
    ensures r.1 == Stored <==> drawable.Some? && Lookup(b.cache, Key(path, width, height)) != Absent
    ensures r.1 == NullDrawable ==> r.0 == b
    ensures r.0 == b.(cache := r.0.cache, bitmaps := r.0.bitmaps)
  {
    if drawable.None? then (b, NullDrawable)
    else
      var k := Key(path, width, height);
      if Lookup(b.cache, k) != Absent then (b.(cache := Put(b.cache, k, drawable, b.capacity).0), Stored)
      else (b.(bitmaps := ReleaseStep(b.bitmaps, drawable.value.bitmap).0), BitmapReleased)
  }

  /**
   * A drawable stored for a pending key makes that key loaded with it and the most recently
   * used, and no other key changes; the map keeps its size and the new bitmap joins the held
   * ones.
   */
  lemma OnLoadedStores(b: Bucket, path: string, width: int, height: int, d: Drawable)
    requires DistinctKeys(b.cache) && Lookup(b.cache, Key(path, width, height)) == Pending
    ensures var r := OnLoadedStep(b, path, width, height, Some(d)).0; var k := Key(path, width, height);
      && Lookup(r.cache, k) == Resolved(d)
      && (forall k' | k' != k :: Lookup(r.cache, k') == Lookup(b.cache, k'))
      && DistinctKeys(r.cache) && |r.cache| == |b.cache| && r.cache[|r.cache| - 1].key == k
      && multiset(Held(r.cache)) == multiset(Held(b.cache)) + multiset{d.bitmap}
      && r.bitmaps == b.bitmaps
  {
    var k := Key(path, width, height);
    PutFacts(b.cache, k, Some(d), b.capacity);
    PutHeld(b.cache, k, Some(d), b.capacity);
    forall k' | k' != k ensures Lookup(Put(b.cache, k, Some(d), b.capacity).0, k') == Lookup(b.cache, k') {
      PutOther(b.cache, k, Some(d), b.capacity, k');
    }
    assert multiset(SlotBitmaps(Lookup(b.cache, k))) == multiset{};
    assert multiset(EvictedBitmaps(Put(b.cache, k, Some(d), b.capacity).1)) == multiset{};
    assert SlotBitmaps(SlotOf(Some(d))) == [d.bitmap];
  }

  /** A drawable whose key the map has dropped is handed back: its bitmap leaves the loans. */
  lemma OnLoadedReleases(b: Bucket, path: string, width: int, height: int, d: Drawable)
    requires Invariant(b.bitmaps) && d.bitmap in b.bitmaps.acquired
    requires Lookup(b.cache, Key(path, width, height)) == Absent
    ensures var r := OnLoadedStep(b, path, width, height, Some(d)).0;
      && r.cache == b.cache
      && Invariant(r.bitmaps) && r.bitmaps.capacity == b.bitmaps.capacity
      && r.bitmaps.acquired == b.bitmaps.acquired - {d.bitmap}
  {
    assert d.bitmap in b.bitmaps.pool;
  }

  /** `onFailure`: the key is forgotten. */
  function OnFailureStep(b: Bucket, path: string, width: int, height: int): (r: Bucket)
    ensures r == b.(cache := r.cache)
  {
    b.(cache := Remove(b.cache, Key(path, width, height)))
  }

  /** A failed key is forgotten, no other key changes, and only its own bitmap, if any, leaves the map. */
  lemma OnFailureForgets(b: Bucket, path: string, width: int, height: int)
    requires DistinctKeys(b.cache)
    ensures var r := OnFailureStep(b, path, width, height); var k := Key(path, width, height);
      && Lookup(r.cache, k) == Absent
      && (forall k' | k' != k :: Lookup(r.cache, k') == Lookup(b.cache, k'))
      && DistinctKeys(r.cache) && |r.cache| <= |b.cache|
      && multiset(Held(r.cache)) + multiset(SlotBitmaps(Lookup(b.cache, k))) == multiset(Held(b.cache))
  {
    var k := Key(path, width, height);
    RemoveFacts(b.cache, k);
    forall k' | k' != k ensures Lookup(Remove(b.cache, k), k') == Lookup(b.cache, k') {
      LookupRemoveOther(b.cache, k, k');
    }
  }

  /**
   * `notifyListeners`: the path's listeners are taken off the map, and a notification is
   * posted only if there were any.
   */
  function NotifyStep(b: Bucket, path: string, drawable: Option<Drawable>, width: int, height: int): (r: Bucket)
    ensures r == b.(listeners := r.listeners, outbox := r.outbox)
    ensures path !in r.listeners && forall p | p in r.listeners :: p in b.listeners && r.listeners[p] == b.listeners[p]
  {
    var (rest, taken) := TakeListeners(b.listeners, path);
    b.(listeners := rest, outbox := if taken != [] then b.outbox + [Notification(path, drawable, width, height, taken)] else b.outbox)
  }

  /** The cache-file work of the run of the `i`th busy thread. */
  function RunExecution(b: Bucket, i: nat, pathHash: string -> int, fetch: FetchOutcome, scale: ScaleOutcome): Execution
    requires i < |b.executor.running|
  {
    var k := b.executor.running[i];
    Execute(b.disk, b.cachePath, k.path, pathHash, k.width, k.height, fetch, scale)
  }

  /** The run decodes a file: the file work ends in `loadFromDisk`. */
  predicate RunDecodes(b: Bucket, i: nat, pathHash: string -> int, fetch: FetchOutcome, scale: ScaleOutcome)
    requires i < |b.executor.running|
  {
    var e := RunExecution(b, i, pathHash, fetch, scale);
    !e.threw && e.decode.Some?
  }

  /**
   * The run's `scale` copies the raw file onto itself: the unsized request, whose scaled file
   * is the raw file, had to scale. Opening the destination for writing truncates the source,
   * so the copy leaves an empty file.
   */
  predicate RunTruncates(b: Bucket, i: nat, pathHash: string -> int, fetch: FetchOutcome, scale: ScaleOutcome)
    requires i < |b.executor.running|
  {
    var k := b.executor.running[i];
    k.width == NO_SIZE && k.height == NO_SIZE && Scales(RunExecution(b, i, pathHash, fetch, scale).calls)
  }

  /**
   * What the decode of the run yields: `RawImageLoader.load` gives `null` for an empty file
   * before the decoder sees it, so a truncated file decodes to `null`; any other file to what
   * the decoder makes of it.
   */
  function RunDecode(b: Bucket, i: nat, pathHash: string -> int, fetch: FetchOutcome, scale: ScaleOutcome, decode: DecodeOutcome): DecodeOutcome
    requires i < |b.executor.running|
  {
    if RunTruncates(b, i, pathHash, fetch, scale) then DecodedNull else decode
  }

  /**
   * `LoaderRunnable.execute` with the `loadFromDisk` it ends in: the file work, then the
   * decode of the scaled file if the file work gets that far. An exception of the file work
   * is caught by `run` and yields no drawable.
   */
  function ExecuteStep(b: Bucket, i: nat, pathHash: string -> int, fetch: FetchOutcome, scale: ScaleOutcome, decode: DecodeOutcome): (r: (Bucket, Option<Drawable>))
    requires Runnable(b) && i < |b.executor.running|
    requires RunDecodes(b, i, pathHash, fetch, scale) ==> CanAcquire(b.bitmaps)
    ensures r.0 == b.(disk := r.0.disk, bitmaps := r.0.bitmaps, rawLoaders := r.0.rawLoaders)
    ensures r.0.disk == RunExecution(b, i, pathHash, fetch, scale).files
    ensures r.1.Some? <==> RunDecodes(b, i, pathHash, fetch, scale) && RunDecode(b, i, pathHash, fetch, scale, decode) == Decoded
  {
    var fetched := b.(disk := RunExecution(b, i, pathHash, fetch, scale).files);
    if RunDecodes(b, i, pathHash, fetch, scale) then
      LoadFromDiskStep(fetched, RunDecode(b, i, pathHash, fetch, scale, decode))
    else (fetched, None)
  }

  /**
   * What a run's file work and decode do to the pools: the raw-image loader is back; the
   * drawable's bitmap is newly on loan; an `IOException` leaves a newly acquired bitmap on
   * loan that nothing holds; otherwise the loans are as before.
   */
  lemma ExecutePools(b: Bucket, i: nat, pathHash: string -> int, fetch: FetchOutcome, scale: ScaleOutcome, decode: DecodeOutcome)
    requires Runnable(b) && Invariant(b.bitmaps) && Invariant(b.rawLoaders) && b.rawLoaders.acquired == {} && i < |b.executor.running|
    requires RunDecodes(b, i, pathHash, fetch, scale) ==> CanAcquire(b.bitmaps)
    ensures var (b', d) := ExecuteStep(b, i, pathHash, fetch, scale, decode);
      && Invariant(b'.bitmaps) && b'.bitmaps.capacity == b.bitmaps.capacity
      && Invariant(b'.rawLoaders) && b'.rawLoaders.acquired == {} && b'.rawLoaders.capacity == b.rawLoaders.capacity
      && (d.Some? ==> d.value.bitmap !in b.bitmaps.acquired && b'.bitmaps.acquired == b.bitmaps.acquired + {d.value.bitmap})
      && (RunDecodes(b, i, pathHash, fetch, scale) && RunDecode(b, i, pathHash, fetch, scale, decode) == ReadFailed ==>
            var h := AcquireStep(b.bitmaps).1;
            h !in b.bitmaps.acquired && b'.bitmaps.acquired == b.bitmaps.acquired + {h})
      && (!RunDecodes(b, i, pathHash, fetch, scale) || RunDecode(b, i, pathHash, fetch, scale, decode) == DecodedNull ==>
            b'.bitmaps.acquired == b.bitmaps.acquired)
  {
    if RunDecodes(b, i, pathHash, fetch, scale) {
      CanAcquireIff(b.rawLoaders);
      LoadFromDiskPools(b.(disk := RunExecution(b, i, pathHash, fetch, scale).files), RunDecode(b, i, pathHash, fetch, scale, decode));
    }
  }

  /** "First notify ourselves": `onLoaded` with a drawable, `onFailure` without one. */
  function SettleStep(b: Bucket, k: Key, drawable: Option<Drawable>): (r: Bucket)
    ensures r == b.(cache := r.cache, bitmaps := r.bitmaps)
    ensures drawable.None? ==> r.bitmaps == b.bitmaps
  {
    if drawable.Some? then OnLoadedStep(b, k.path, k.width, k.height, drawable).0
    else OnFailureStep(b, k.path, k.width, k.height)
  }

  /**
   * A loaded drawable settles its key, pending or dropped meanwhile: the key ends loaded
   * with it or absent, no other key changes, and the drawable's bitmap, on loan and held
   * by nobody, ends held by the map or handed back, so the balance of loans is kept.
   */
  lemma SettleLoaded(b: Bucket, k: Key, d: Drawable)
    requires DistinctKeys(b.cache) && |b.cache| <= b.capacity && !Lookup(b.cache, k).Resolved?
    requires Invariant(b.bitmaps) && d.bitmap in b.bitmaps.acquired
    ensures var r := SettleStep(b, k, Some(d));
      && Lookup(r.cache, k) == (if Lookup(b.cache, k) == Pending then Resolved(d) else Absent)
      && (forall k' | k' != k :: Lookup(r.cache, k') == Lookup(b.cache, k'))
      && DistinctKeys(r.cache) && |r.cache| <= b.capacity
      && Invariant(r.bitmaps) && r.bitmaps.capacity == b.bitmaps.capacity
      && (multiset(Held(b.cache)) + multiset{d.bitmap} <= multiset(b.bitmaps.acquired) ==> multiset(Held(r.cache)) <= multiset(r.bitmaps.acquired))
      && (multiset(Held(b.cache)) + multiset{d.bitmap} == multiset(b.bitmaps.acquired) ==> multiset(Held(r.cache)) == multiset(r.bitmaps.acquired))
  {
    if Lookup(b.cache, k) == Pending {
      OnLoadedStores(b, k.path, k.width, k.height, d);
    } else {
      OnLoadedReleases(b, k.path, k.width, k.height, d);
      var acq := b.bitmaps.acquired;
      assert multiset(acq) == multiset(acq - {d.bitmap}) + multiset{d.bitmap} by {
        assert acq == (acq - {d.bitmap}) + {d.bitmap};
      }
      MultisetCancel(multiset(Held(b.cache)), multiset(acq - {d.bitmap}), multiset{d.bitmap},
                     multiset(Held(b.cache)) + multiset{d.bitmap}, multiset(acq));
    }
  }

  /** A failure settles its key, pending or dropped: the key ends absent and no bitmap moves. */
  lemma SettleFailed(b: Bucket, k: Key)
    requires DistinctKeys(b.cache) && |b.cache| <= b.capacity && !Lookup(b.cache, k).Resolved?
    ensures var r := SettleStep(b, k, None);
      && Lookup(r.cache, k) == Absent
      && (forall k' | k' != k :: Lookup(r.cache, k') == Lookup(b.cache, k'))
      && DistinctKeys(r.cache) && |r.cache| <= b.capacity
      && multiset(Held(r.cache)) == multiset(Held(b.cache))
  {
    OnFailureForgets(b, k.path, k.width, k.height);
    assert multiset(SlotBitmaps(Lookup(b.cache, k))) == multiset{};
  }

  /**
   * `LoaderRunnable.run` of the `i`th busy thread: `execute`, then `onLoaded` or
   * `onFailure`, then `notifyListeners`; and the loader leaves `mLoaders` as its thread is
   * freed and takes the front of the queue. The bitmap acquire must not block.
   */
  function RunStep(b: Bucket, i: nat, pathHash: string -> int, fetch: FetchOutcome, scale: ScaleOutcome, decode: DecodeOutcome): (r: Bucket)
    requires Runnable(b) && i < |b.executor.running|
    requires RunDecodes(b, i, pathHash, fetch, scale) ==> CanAcquire(b.bitmaps)
  {
    var k := b.executor.running[i];
    var executed := ExecuteStep(b, i, pathHash, fetch, scale, decode);
    FinishStep(SettleStep(executed.0, k, executed.1), k, i, executed.1)
  }

  /** The end of `LoaderRunnable.run`: `notifyListeners`, then the loader and its thread are freed. */
  function FinishStep(settled: Bucket, k: Key, i: nat, drawable: Option<Drawable>): (r: Bucket)
    requires LifoExecutor.Valid(settled.executor) && i < |settled.executor.running|
    ensures r == settled.(listeners := r.listeners, outbox := r.outbox, loaders := settled.loaders - {k}, executor := Complete(settled.executor, i))
    ensures r.listeners == TakeListeners(settled.listeners, k.path).0
    ensures var taken := ListenersOf(settled.listeners, k.path);
      r.outbox == settled.outbox + (if taken != [] then [Notification(k.path, drawable, k.width, k.height, taken)] else [])
  {
    var notified := NotifyStep(settled, k.path, drawable, k.width, k.height);
    notified.(loaders := notified.loaders - {k}, executor := Complete(notified.executor, i))
  }

  /** The key of a running loader is in flight, so it is not loaded yet. */
  lemma RunningKeyInFlight(b: Bucket, i: nat)
    requires Inv(b) && Protocol(b) && i < |b.executor.running|
    ensures b.executor.running[i] in b.loaders && !Lookup(b.cache, b.executor.running[i]).Resolved?
  {
    CompleteKeepsSingleFlight(b.executor, b.loaders, i);
  }

  /** Adding a new element to a set adds it once to the set's multiset. */
  lemma MultisetAddNew<T>(a: set<T>, x: T)
    requires x !in a
    ensures multiset(a + {x}) == multiset(a) + multiset{x}
  {
  }

  /**
   * After a run's `execute`, `onLoaded` or `onFailure` keeps the pools and the map well
   * formed and every held bitmap on loan; the run's key is no longer pending and no other
   * key changes.
   */
  lemma SettleKeeps(b: Bucket, executed: Bucket, k: Key, drawable: Option<Drawable>)
    requires Inv(b) && Protocol(b) && k in b.loaders
    requires executed == b.(disk := executed.disk, bitmaps := executed.bitmaps, rawLoaders := executed.rawLoaders)
    requires Invariant(executed.bitmaps) && executed.bitmaps.capacity == b.bitmaps.capacity
    requires Invariant(executed.rawLoaders) && executed.rawLoaders.acquired == {} && executed.rawLoaders.capacity == b.rawLoaders.capacity
    requires drawable.Some? ==>
      drawable.value.bitmap !in b.bitmaps.acquired && executed.bitmaps.acquired == b.bitmaps.acquired + {drawable.value.bitmap}
    requires drawable.None? ==> b.bitmaps.acquired <= executed.bitmaps.acquired
    ensures var settled := SettleStep(executed, k, drawable);
      && settled == b.(disk := settled.disk, cache := settled.cache, bitmaps := settled.bitmaps, rawLoaders := settled.rawLoaders)
      && Invariant(settled.bitmaps) && settled.bitmaps.capacity == b.bitmaps.capacity
      && Invariant(settled.rawLoaders) && settled.rawLoaders.acquired == {} && settled.rawLoaders.capacity == b.rawLoaders.capacity
      && DistinctKeys(settled.cache) && |settled.cache| <= b.capacity
      && multiset(Held(settled.cache)) <= multiset(settled.bitmaps.acquired)
      && !Lookup(settled.cache, k).Pending?
      && (forall k' | k' != k :: Lookup(settled.cache, k') == Lookup(b.cache, k'))
  {
    if drawable.Some? {
      MultisetAddNew(b.bitmaps.acquired, drawable.value.bitmap);
      SettleLoaded(executed, k, drawable.value);
    } else {
      SettleFailed(executed, k);
      SubsetMultiset(b.bitmaps.acquired, executed.bitmaps.acquired);
    }
  }

  lemma SubsetMultiset<T>(a: set<T>, b: set<T>)
    requires a <= b
    ensures multiset(a) <= multiset(b)
  {
  }

  /**
   * The end of a run keeps the invariant: the listeners are taken, the key leaves the
   * loaders and its task leaves the executor.
   */
  lemma FinishKeepsInvariant(b: Bucket, settled: Bucket, i: nat, drawable: Option<Drawable>)
    requires Inv(b) && i < |b.executor.running| && b.executor.running[i] in b.loaders
    requires settled == b.(disk := settled.disk, cache := settled.cache, bitmaps := settled.bitmaps, rawLoaders := settled.rawLoaders)
    requires Invariant(settled.bitmaps) && settled.bitmaps.capacity == b.bitmaps.capacity
    requires Invariant(settled.rawLoaders) && settled.rawLoaders.acquired == {} && settled.rawLoaders.capacity == b.rawLoaders.capacity
    requires DistinctKeys(settled.cache) && |settled.cache| <= b.capacity
    requires multiset(Held(settled.cache)) <= multiset(settled.bitmaps.acquired)
    ensures Inv(FinishStep(settled, b.executor.running[i], i, drawable))
  {
    CompleteKeepsSingleFlight(b.executor, b.loaders, i);
  }

  /** The end of a run keeps the protocol: its key, no longer pending, leaves the loaders. */
  lemma FinishKeepsProtocol(b: Bucket, settled: Bucket, i: nat, drawable: Option<Drawable>)
    requires Runnable(b) && Protocol(b) && i < |b.executor.running|
    requires settled == b.(disk := settled.disk, cache := settled.cache, bitmaps := settled.bitmaps, rawLoaders := settled.rawLoaders)
    requires !Lookup(settled.cache, b.executor.running[i]).Pending?
    requires forall k' | k' != b.executor.running[i] :: Lookup(settled.cache, k') == Lookup(b.cache, k')
    ensures Protocol(FinishStep(settled, b.executor.running[i], i, drawable))
  {
  }

  /** A run keeps the invariant and the load protocol. */
  lemma RunKeepsInvariants(b: Bucket, i: nat, pathHash: string -> int, fetch: FetchOutcome, scale: ScaleOutcome, decode: DecodeOutcome)
    requires Inv(b) && Protocol(b) && i < |b.executor.running|
    requires RunDecodes(b, i, pathHash, fetch, scale) ==> CanAcquire(b.bitmaps)
    ensures var r := RunStep(b, i, pathHash, fetch, scale, decode);
      Inv(r) && Protocol(r)
  {
    RunningKeyInFlight(b, i);
    var executed := ExecuteStep(b, i, pathHash, fetch, scale, decode);
    RunKeeps(b, i, pathHash, fetch, scale, decode, executed);
  }

  /** `RunKeepsInvariants` over the outcome of the run's `execute`. */
  lemma RunKeeps(b: Bucket, i: nat, pathHash: string -> int, fetch: FetchOutcome, scale: ScaleOutcome, decode: DecodeOutcome,
                 executed: (Bucket, Option<Drawable>))
    requires Inv(b) && Protocol(b) && i < |b.executor.running| && b.executor.running[i] in b.loaders
    requires RunDecodes(b, i, pathHash, fetch, scale) ==> CanAcquire(b.bitmaps)
    requires executed == ExecuteStep(b, i, pathHash, fetch, scale, decode)
    ensures var k := b.executor.running[i];
      var r := FinishStep(SettleStep(executed.0, k, executed.1), k, i, executed.1);
      Inv(r) && Protocol(r)
  {
    var k := b.executor.running[i];
    ExecutePools(b, i, pathHash, fetch, scale, decode);
    SettleKeeps(b, executed.0, k, executed.1);
    var settled := SettleStep(executed.0, k, executed.1);
    FinishKeepsInvariant(b, settled, i, executed.1);
    FinishKeepsProtocol(b, settled, i, executed.1);
  }

  /**
   * With no bitmap lost before, `onLoaded` leaves none lost, and `onFailure` leaves the
   * map holding exactly the bitmaps on loan before the run.
   */
  lemma SettleBalance(b: Bucket, executed: Bucket, k: Key, drawable: Option<Drawable>)
    requires Inv(b) && Protocol(b) && NoLeak(b) && k in b.loaders
    requires executed == b.(disk := executed.disk, bitmaps := executed.bitmaps, rawLoaders := executed.rawLoaders)
    requires Invariant(executed.bitmaps)
    requires drawable.Some? ==>
      drawable.value.bitmap !in b.bitmaps.acquired && executed.bitmaps.acquired == b.bitmaps.acquired + {drawable.value.bitmap}
    ensures var settled := SettleStep(executed, k, drawable);
      && (drawable.Some? ==> NoLeak(settled))
      && (drawable.None? ==> multiset(Held(settled.cache)) == multiset(b.bitmaps.acquired) && settled.bitmaps == executed.bitmaps)
  {
    if drawable.Some? {
      MultisetAddNew(b.bitmaps.acquired, drawable.value.bitmap);
      SettleLoaded(executed, k, drawable.value);
    } else {
      SettleFailed(executed, k);
    }
  }

  /** Unless a read fails after its bitmap is taken, a run loses no bitmap. */
  lemma RunKeepsNoLeak(b: Bucket, i: nat, pathHash: string -> int, fetch: FetchOutcome, scale: ScaleOutcome, decode: DecodeOutcome)
    requires Inv(b) && Protocol(b) && NoLeak(b) && i < |b.executor.running|
    requires RunDecodes(b, i, pathHash, fetch, scale) ==>
      CanAcquire(b.bitmaps) && RunDecode(b, i, pathHash, fetch, scale, decode) != ReadFailed
    ensures NoLeak(RunStep(b, i, pathHash, fetch, scale, decode))
  {
    var k := b.executor.running[i];
    var (executed, drawable) := ExecuteStep(b, i, pathHash, fetch, scale, decode);
    RunningKeyInFlight(b, i);
    ExecutePools(b, i, pathHash, fetch, scale, decode);
    SettleBalance(b, executed, k, drawable);
  }

  /**
   * The `IOException` path of `loadFromDisk` loses a bitmap: the one it took stays on loan
   * and no entry holds it, so no later step hands it back. (A file its own scale truncated
   * never reaches the decoder, so it cannot fail this way.)
   */
  lemma ReadFailureLeaksBitmap(b: Bucket, i: nat, pathHash: string -> int, fetch: FetchOutcome, scale: ScaleOutcome)
    requires Inv(b) && Protocol(b) && NoLeak(b) && i < |b.executor.running|
    requires RunDecodes(b, i, pathHash, fetch, scale) && CanAcquire(b.bitmaps) && !RunTruncates(b, i, pathHash, fetch, scale)
    ensures var h := AcquireStep(b.bitmaps).1; var r := RunStep(b, i, pathHash, fetch, scale, ReadFailed);
      && h in r.bitmaps.acquired && h !in Held(r.cache)
      && multiset(r.bitmaps.acquired) == multiset(Held(r.cache)) + multiset{h}
      && !NoLeak(r)
  {
    var k := b.executor.running[i];
    var h := AcquireStep(b.bitmaps).1;
    var (executed, drawable) := ExecuteStep(b, i, pathHash, fetch, scale, ReadFailed);
    RunningKeyInFlight(b, i);
    ExecutePools(b, i, pathHash, fetch, scale, ReadFailed);
    SettleBalance(b, executed, k, drawable);
    MultisetAddNew(b.bitmaps.acquired, h);
    var r := RunStep(b, i, pathHash, fetch, scale, ReadFailed);
    assert multiset(Held(r.cache)) == multiset(b.bitmaps.acquired);
    assert h !in Held(r.cache) by {
      assert multiset(b.bitmaps.acquired)[h] == 0;
    }
  }

  /**
   * The first request for the unscaled size of a path whose raw file is not on disk never
   * yields a drawable, whatever the download, the scale and the decoder do: the download is
   * scaled onto itself, the file is left empty and decodes to `null`, and the bitmap taken
   * for it goes straight back.
   */
  lemma FirstUnsizedRunYieldsNothing(b: Bucket, i: nat, pathHash: string -> int, fetch: FetchOutcome, scale: ScaleOutcome, decode: DecodeOutcome)
    requires Inv(b) && i < |b.executor.running|
    requires RunDecodes(b, i, pathHash, fetch, scale) ==> CanAcquire(b.bitmaps)
    requires var k := b.executor.running[i];
      k.width == NO_SIZE && k.height == NO_SIZE && RawFileName(b.cachePath, k.path, pathHash) !in b.disk
    ensures var r := ExecuteStep(b, i, pathHash, fetch, scale, decode);
      r.1 == None && r.0.bitmaps.acquired == b.bitmaps.acquired
  {
    var k := b.executor.running[i];
    assert FileName(b.cachePath, k.path, pathHash, k.width, k.height) == RawFileName(b.cachePath, k.path, pathHash);
    ExecutePools(b, i, pathHash, fetch, scale, decode);
  }

  /**
   * A run settles its own key and no other: the key ends loaded with the drawable if it
   * was still pending and a drawable came, and absent otherwise.
   */
  lemma RunSettlesKey(b: Bucket, i: nat, pathHash: string -> int, fetch: FetchOutcome, scale: ScaleOutcome, decode: DecodeOutcome)
    requires Inv(b) && Protocol(b) && i < |b.executor.running|
    requires RunDecodes(b, i, pathHash, fetch, scale) ==> CanAcquire(b.bitmaps)
    ensures var k := b.executor.running[i];
      var d := ExecuteStep(b, i, pathHash, fetch, scale, decode).1;
      var r := RunStep(b, i, pathHash, fetch, scale, decode);
      && (d.Some? <==> RunDecodes(b, i, pathHash, fetch, scale) && RunDecode(b, i, pathHash, fetch, scale, decode) == Decoded)
      && Lookup(r.cache, k) == (if d.Some? && Lookup(b.cache, k) == Pending then Resolved(d.value) else Absent)
      && (forall k' | k' != k :: Lookup(r.cache, k') == Lookup(b.cache, k'))
      && r.disk == RunExecution(b, i, pathHash, fetch, scale).files
  {
    RunningKeyInFlight(b, i);
    var executed := ExecuteStep(b, i, pathHash, fetch, scale, decode);
    RunCache(b, i, pathHash, fetch, scale, decode, executed, RunStep(b, i, pathHash, fetch, scale, decode));
    FinishFrame(b, SettleStep(executed.0, b.executor.running[i], executed.1), i, executed.1);
  }

  /** `RunSettlesKey` for a key that is not loaded, over the outcome of its `execute`. */
  lemma RunCache(b: Bucket, i: nat, pathHash: string -> int, fetch: FetchOutcome, scale: ScaleOutcome, decode: DecodeOutcome,
                 executed: (Bucket, Option<Drawable>), r: Bucket)
    requires Inv(b) && i < |b.executor.running| && !Lookup(b.cache, b.executor.running[i]).Resolved?
    requires RunDecodes(b, i, pathHash, fetch, scale) ==> CanAcquire(b.bitmaps)
    requires executed == ExecuteStep(b, i, pathHash, fetch, scale, decode)
    requires r == FinishStep(SettleStep(executed.0, b.executor.running[i], executed.1), b.executor.running[i], i, executed.1)
    ensures var k := b.executor.running[i];
      && Lookup(r.cache, k) == (if executed.1.Some? && Lookup(b.cache, k) == Pending then Resolved(executed.1.value) else Absent)
      && (forall k' | k' != k :: Lookup(r.cache, k') == Lookup(b.cache, k'))
  {
    var k := b.executor.running[i];
    ExecutePools(b, i, pathHash, fetch, scale, decode);
    SettleOutcome(b, executed.0, k, executed.1);
  }

  /** How the key ends after `onLoaded` or `onFailure`, in terms of the bucket before the run. */
  lemma SettleOutcome(b: Bucket, executed: Bucket, k: Key, drawable: Option<Drawable>)
    requires DistinctKeys(b.cache) && |b.cache| <= b.capacity && !Lookup(b.cache, k).Resolved?
    requires executed == b.(disk := executed.disk, bitmaps := executed.bitmaps, rawLoaders := executed.rawLoaders)
    requires Invariant(executed.bitmaps)
    requires drawable.Some? ==> drawable.value.bitmap in executed.bitmaps.acquired
    ensures var settled := SettleStep(executed, k, drawable);
      && Lookup(settled.cache, k) == (if drawable.Some? && Lookup(b.cache, k) == Pending then Resolved(drawable.value) else Absent)
      && (forall k' | k' != k :: Lookup(settled.cache, k') == Lookup(b.cache, k'))
  {
    if drawable.Some? {
      SettleLoaded(executed, k, drawable.value);
    } else {
      SettleFailed(executed, k);
    }
  }

  /**
   * The end of a run, after `onLoaded` or `onFailure`: the listeners of the path are taken
   * and notified, the loader leaves the set and its task the executor; the cache, the pools
   * and the disk are as settled.
   */
  lemma FinishFrame(b: Bucket, settled: Bucket, i: nat, drawable: Option<Drawable>)
    requires Runnable(b) && Registrations(b.listeners) && i < |b.executor.running|
    requires settled == b.(cache := settled.cache, bitmaps := settled.bitmaps, disk := settled.disk, rawLoaders := settled.rawLoaders)
    ensures var k := b.executor.running[i];
      var r := FinishStep(settled, k, i, drawable);
      && r.cache == settled.cache && r.bitmaps == settled.bitmaps && r.disk == settled.disk
      && r.listeners == TakeListeners(b.listeners, k.path).0
      && r.outbox == b.outbox + (if k.path in b.listeners then [Notification(k.path, drawable, k.width, k.height, b.listeners[k.path])] else [])
      && r.delivered == b.delivered
      && r.loaders == b.loaders - {k}
      && Tasks(r.executor) + multiset{k} == Tasks(b.executor)
  {
    var k := b.executor.running[i];
    assert ListenersOf(b.listeners, k.path) != [] <==> k.path in b.listeners;
  }

  /**
   * A run notifies the listeners waiting on its path, with its own size and drawable, and
   * only them; its loader leaves the set and its task the executor.
   */
  lemma RunNotifiesWaiters(b: Bucket, i: nat, pathHash: string -> int, fetch: FetchOutcome, scale: ScaleOutcome, decode: DecodeOutcome)
    requires Inv(b) && i < |b.executor.running|
    requires RunDecodes(b, i, pathHash, fetch, scale) ==> CanAcquire(b.bitmaps)
    ensures var k := b.executor.running[i];
      var d := ExecuteStep(b, i, pathHash, fetch, scale, decode).1;
      var r := RunStep(b, i, pathHash, fetch, scale, decode);
      && r.listeners == TakeListeners(b.listeners, k.path).0
      && r.outbox == b.outbox + (if k.path in b.listeners then [Notification(k.path, d, k.width, k.height, b.listeners[k.path])] else [])
      && r.delivered == b.delivered
      && r.loaders == b.loaders - {k}
      && Tasks(r.executor) + multiset{k} == Tasks(b.executor)
  {
    var k := b.executor.running[i];
    var executed := ExecuteStep(b, i, pathHash, fetch, scale, decode);
    FinishFrame(b, SettleStep(executed.0, k, executed.1), i, executed.1);
  }

  /**
   * A run that yields no drawable leaves its key unknown and its loader gone, so the next
   * `get` of the key is a miss that submits a fresh loader.
   */
  lemma FailedRunReloads(b: Bucket, i: nat, pathHash: string -> int, fetch: FetchOutcome, scale: ScaleOutcome, decode: DecodeOutcome,
                         listener: Option<ListenerId>)
    requires Inv(b) && Protocol(b) && i < |b.executor.running|
    requires RunDecodes(b, i, pathHash, fetch, scale) ==> CanAcquire(b.bitmaps)
    requires ExecuteStep(b, i, pathHash, fetch, scale, decode).1.None?
    ensures var k := b.executor.running[i];
      var r := RunStep(b, i, pathHash, fetch, scale, decode);
      var g := GetStep(r, k.path, k.width, k.height, listener);
      && Lookup(r.cache, k) == Absent && k !in r.loaders
      && g.1 == None && k in g.0.loaders
      && Tasks(g.0.executor) == Tasks(r.executor) + multiset{k}
  {
    var k := b.executor.running[i];
    var r := RunStep(b, i, pathHash, fetch, scale, decode);
    RunSettlesKey(b, i, pathHash, fetch, scale, decode);
    RunNotifiesWaiters(b, i, pathHash, fetch, scale, decode);
    RunKeepsInvariants(b, i, pathHash, fetch, scale, decode);
    GetMiss(r, k.path, k.width, k.height, listener);
  }

  /** When no bitmap is lost, the bitmap pool, one larger than the map, always has room. */
  lemma NoLeakLeavesRoom(b: Bucket)
    requires Inv(b) && NoLeak(b)
    ensures CanAcquire(b.bitmaps)
  {
    HeldSize(b.cache);
    assert |multiset(Held(b.cache))| == |Held(b.cache)|;
    SetMultisetCard(b.bitmaps.acquired);
    CanAcquireIff(b.bitmaps);
  }

  lemma {:induction false} SetMultisetCard<T>(a: set<T>)
    ensures |multiset(a)| == |a|
    decreases |a|
  {
    if a != {} {
      var x :| x in a;
      SetMultisetCard(a - {x});
      assert a == (a - {x}) + {x};
      MultisetAddNew(a - {x}, x);
    }
  }

  // ---------------------------------------------------------------------------------------
  // The main thread, and whole histories.

  /**
   * The main thread runs the oldest posted `NotifyRunnable`: its listeners are called, in
   * registration order, and it leaves the queue.
   */
  function DeliverStep(b: Bucket): (r: Bucket)
    ensures b.outbox == [] ==> r == b
    ensures b.outbox != [] ==> r.outbox == b.outbox[1..]
    ensures b.outbox != [] ==>
      && |b.delivered| <= |r.delivered| && r.delivered[..|b.delivered|] == b.delivered
      && Recipients(r.delivered[|b.delivered|..]) == b.outbox[0].listeners
    ensures r == b.(outbox := r.outbox, delivered := r.delivered)
  {
    if b.outbox == [] then b
    else
      var calls := NotificationCalls(b.outbox[0]);
      assert (b.delivered + calls)[|b.delivered|..] == calls;
      b.(outbox := b.outbox[1..], delivered := b.delivered + calls)
  }

  /** One step of a history: a `get` from the main thread, a loader's run, or a delivery. */
  datatype Event =
    | GetEvent(path: string, width: int, height: int, listener: Option<ListenerId>)
    | RunEvent(thread: nat, fetch: FetchOutcome, scale: ScaleOutcome, decode: DecodeOutcome)
    | DeliverEvent

  /** Where a history ends: after its last step, or at a loader whose bitmap acquire blocks. */
  datatype Trace = Reached(bucket: Bucket) | Blocked(bucket: Bucket)

  /** A run that fails to read a file it was about to decode. */
  predicate ReadFails(ev: Event)
  {
    ev.RunEvent? && ev.decode == ReadFailed
  }

  /**
   * One step of a history: a run names a busy thread (an event naming an idle one changes
   * nothing), and there is no next state where that thread's `loadFromDisk` would wait
   * for a bitmap.
   */
  ghost function Next(b: Bucket, pathHash: string -> int, ev: Event): (r: Option<Bucket>)
    requires Inv(b) && Protocol(b)
    ensures r.Some? ==> Inv(r.value) && Protocol(r.value)
    ensures r.None? <==>
      (ev.RunEvent? && ev.thread < |b.executor.running| &&
       RunDecodes(b, ev.thread, pathHash, ev.fetch, ev.scale) && !CanAcquire(b.bitmaps))
  {
    match ev
    case GetEvent(path, width, height, listener) =>
      GetKeepsInvariants(b, path, width, height, listener);
      Some(GetStep(b, path, width, height, listener).0)
    case RunEvent(i, fetch, scale, decode) =>
      if i >= |b.executor.running| then Some(b)
      else if RunDecodes(b, i, pathHash, fetch, scale) && !CanAcquire(b.bitmaps) then None
      else
        RunKeepsInvariants(b, i, pathHash, fetch, scale, decode);
        Some(RunStep(b, i, pathHash, fetch, scale, decode))
    case DeliverEvent =>
      Some(DeliverStep(b))
  }

  /** A history played from a state, up to its end or to the step that would block. */
  ghost function Replay(b: Bucket, pathHash: string -> int, evs: seq<Event>): (t: Trace)
    requires Inv(b) && Protocol(b)
    ensures Inv(t.bucket) && Protocol(t.bucket)
    decreases |evs|
  {
    if evs == [] then Reached(b)
    else
      match Next(b, pathHash, evs[0])
      case None => Blocked(b)
      case Some(b') => Replay(b', pathHash, evs[1..])
  }

  /** A step that is not a failed read can always be taken, and it loses no bitmap. */
  lemma NextKeepsNoLeak(b: Bucket, pathHash: string -> int, ev: Event)
    requires Inv(b) && Protocol(b) && NoLeak(b) && !ReadFails(ev)
    ensures Next(b, pathHash, ev).Some? && NoLeak(Next(b, pathHash, ev).value)
  {
    match ev
    case GetEvent(path, width, height, listener) =>
      GetKeepsInvariants(b, path, width, height, listener);
    case RunEvent(i, fetch, scale, decode) =>
      NoLeakLeavesRoom(b);
      if i < |b.executor.running| {
        RunKeepsNoLeak(b, i, pathHash, fetch, scale, decode);
      }
    case DeliverEvent =>
  }

  /**
   * The bitmap pool is one larger than the map so that a loader never waits: as long as no
   * read fails, no history blocks and none loses a bitmap.
   */
  lemma {:induction false} NoReadFailureNeverBlocks(b: Bucket, pathHash: string -> int, evs: seq<Event>)
    requires Inv(b) && Protocol(b) && NoLeak(b)
    requires forall j | 0 <= j < |evs| :: !ReadFails(evs[j])
    ensures Replay(b, pathHash, evs).Reached?
    ensures NoLeak(Replay(b, pathHash, evs).bucket)
    decreases |evs|
  {
    if evs != [] {
      assert !ReadFails(evs[0]);
      NextKeepsNoLeak(b, pathHash, evs[0]);
      NoReadFailureNeverBlocks(Next(b, pathHash, evs[0]).value, pathHash, evs[1..]);
    }
  }

  /** From a freshly constructed bucket, a history without a read failure never blocks. */
  lemma NewBucketNeverBlocks(cachePath: string, capacity: nat, disk: set<string>, pathHash: string -> int, evs: seq<Event>)
    requires forall j | 0 <= j < |evs| :: !ReadFails(evs[j])
    ensures var b := New(cachePath, capacity, disk);
      Replay(b, pathHash, evs).Reached? && NoLeak(Replay(b, pathHash, evs).bucket)
  {
    NoReadFailureNeverBlocks(New(cachePath, capacity, disk), pathHash, evs);
  }
}
