/**
 * The values the caches are keyed by and the values they hold.
 */
module Keys {
  import ObjectPool

  /**
   * A request key: the remote path and the requested size. It plays the role of both
   * `DrawableKey` (the LRU map's key) and `LoaderRunnable` (the single-flight set's key);
   * the `equals` of both compares all three fields and nothing else, which is the value
   * equality of this datatype.
   */
  datatype Key = Key(path: string, width: int, height: int)

  /** A decoded drawable: a `BitmapDrawable` around a bitmap borrowed from the bitmap pool. */
  datatype Drawable = Drawable(bitmap: ObjectPool.Handle)

  /** Listeners are compared by identity (`BucketListener` does not override `equals`). */
  type ListenerId = nat
}
