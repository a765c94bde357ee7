/**
 * The load dispatch of `AbstractBucket`: the listeners waiting for a path, keyed by the path
 * alone; the notifications posted to the main thread and the callbacks they make; and the
 * one-task-per-key bond between the loaders in flight, keyed by (path, width, height), and
 * the executor they run on.
 */
module Dispatch {
  import opened Wrappers
  import opened Keys
  import opened Collections
  import opened DiskCache
  import opened LifoExecutor

  // ---------------------------------------------------------------------------------------
  // Listener registrations.

  /** `LinkedHashSet.add`: a listener joins the end of the set unless it is already in it. */
  function SetAdd(s: seq<ListenerId>, l: ListenerId): (r: seq<ListenerId>)
    ensures Elements(r) == Elements(s) + {l}
    ensures |s| <= |r| <= |s| + 1 && r[..|s|] == s
    ensures Distinct(s) ==> Distinct(r)
  {
    if l in s then s else s + [l]
  }

  lemma SetAddIdempotent(s: seq<ListenerId>, l: ListenerId)
    ensures SetAdd(SetAdd(s, l), l) == SetAdd(s, l)
  {
  }

  /** The listeners waiting for a path; a path with no entry has none. */
  function ListenersOf(m: map<string, seq<ListenerId>>, path: string): seq<ListenerId>
  {
    if path in m then m[path] else []
  }

  /** Every registered path has a non-empty, duplicate-free listener set. */
  predicate Registrations(m: map<string, seq<ListenerId>>)
  {
    forall p | p in m :: m[p] != [] && Distinct(m[p])
  }

  /** `addListener`: the path's set is created if missing and the listener is added to it. */
  function AddListenerTo(m: map<string, seq<ListenerId>>, path: string, l: ListenerId): (m': map<string, seq<ListenerId>>)
    ensures Registrations(m) ==> Registrations(m')
    ensures m'.Keys == m.Keys + {path}
    ensures forall p | p in m && p != path :: m'[p] == m[p]
    ensures l in m'[path] && |ListenersOf(m, path)| <= |m'[path]|
    ensures m'[path][..|ListenersOf(m, path)|] == ListenersOf(m, path)
  {
    m[path := SetAdd(ListenersOf(m, path), l)]
  }

  /** The listener-map side of `notifyListeners`: the path's set is taken and its entry removed. */
  function TakeListeners(m: map<string, seq<ListenerId>>, path: string): (r: (map<string, seq<ListenerId>>, seq<ListenerId>))
    ensures r.0.Keys == m.Keys - {path}
    ensures forall p | p in r.0 :: r.0[p] == m[p]
    ensures r.1 == ListenersOf(m, path)
    ensures Registrations(m) ==> Registrations(r.0)
  {
    (m - {path}, ListenersOf(m, path))
  }

  // ---------------------------------------------------------------------------------------
  // Notifications.

  /** A posted `NotifyRunnable`. */
  datatype Notification = Notification(path: string, drawable: Option<Drawable>, width: int, height: int, listeners: seq<ListenerId>)

  /** A call on a `BucketListener`. */
  datatype Callback =
    | OnLoadedCall(listener: ListenerId, path: string, drawable: Drawable, width: int, height: int)
    | OnFailureCall(listener: ListenerId, path: string, width: int, height: int)

  function Recipient(c: Callback): ListenerId
  {
    match c
    case OnLoadedCall(l, _, _, _, _) => l
    case OnFailureCall(l, _, _, _) => l
  }

  /** The listeners called, in call order. */
  function Recipients(calls: seq<Callback>): (r: seq<ListenerId>)
    ensures |r| == |calls| && forall i | 0 <= i < |calls| :: r[i] == Recipient(calls[i])
  {
    if calls == [] then [] else [Recipient(calls[0])] + Recipients(calls[1..])
  }

  /** The callback a listener of a notification receives: success with a drawable, else failure. */
  function CallbackFor(n: Notification, l: ListenerId): (c: Callback)
    ensures Recipient(c) == l
    ensures c.OnLoadedCall? <==> n.drawable.Some?
    ensures c.OnLoadedCall? ==> c == OnLoadedCall(l, n.path, n.drawable.value, n.width, n.height)
    ensures c.OnFailureCall? ==> c == OnFailureCall(l, n.path, n.width, n.height)
  {
    match n.drawable
    case Some(d) => OnLoadedCall(l, n.path, d, n.width, n.height)
    case None => OnFailureCall(l, n.path, n.width, n.height)
  }

  /** The callbacks a notification makes, one per listener in registration order. */
  function NotificationCalls(n: Notification): (calls: seq<Callback>)
    ensures Recipients(calls) == n.listeners
    ensures forall i | 0 <= i < |calls| :: calls[i] == CallbackFor(n, n.listeners[i])
  {
    seq(|n.listeners|, j requires 0 <= j < |n.listeners| => CallbackFor(n, n.listeners[j]))
  }

  /**
   * `NotifyRunnable.run`: every listener, in registration order, is called once, with
   * `onLoaded` when there is a drawable and with `onFailure` when there is none.
   */
  method RunNotification(n: Notification) returns (calls: seq<Callback>)
    ensures calls == NotificationCalls(n)
  {
    calls := [];
    if n.drawable.Some? {
      for i := 0 to |n.listeners|
        invariant |calls| == i
        invariant forall j | 0 <= j < i :: calls[j] == OnLoadedCall(n.listeners[j], n.path, n.drawable.value, n.width, n.height)
      {
        calls := calls + [OnLoadedCall(n.listeners[i], n.path, n.drawable.value, n.width, n.height)];
      }
    } else {
      for i := 0 to |n.listeners|
        invariant |calls| == i
        invariant forall j | 0 <= j < i :: calls[j] == OnFailureCall(n.listeners[j], n.path, n.width, n.height)
      {
        calls := calls + [OnFailureCall(n.listeners[i], n.path, n.width, n.height)];
      }
    }
  }

  /**
   * A listener registered once for a path receives exactly one callback when it is notified:
   * `onLoaded` with the drawable when the load succeeded, `onFailure` when it did not.
   */
  lemma ExactlyOneCallback(n: Notification, l: ListenerId)
    requires Distinct(n.listeners) && l in n.listeners
    ensures var calls := NotificationCalls(n);
      exists i | 0 <= i < |calls| ::
        && calls[i] == (if n.drawable.Some? then OnLoadedCall(l, n.path, n.drawable.value, n.width, n.height)
                        else OnFailureCall(l, n.path, n.width, n.height))
        && forall j | 0 <= j < |calls| && j != i :: Recipient(calls[j]) != l
  {
    var calls := NotificationCalls(n);
    var i :| 0 <= i < |n.listeners| && n.listeners[i] == l;
    assert Recipient(calls[i]) == l;
  }

  /**
   * Listeners wait on the path, not on the size: two loads of one path at different sizes
   * register into the same set, so the first of the two loaders to finish notifies both
   * listeners with its own size, and the second finds nobody left to notify.
   */
  lemma ListenersAreScopedByPath(m: map<string, seq<ListenerId>>, path: string, l1: ListenerId, l2: ListenerId)
    requires path !in m && l1 != l2
    ensures var m' := AddListenerTo(AddListenerTo(m, path, l1), path, l2);
      var (m'', first) := TakeListeners(m', path);
      first == [l1, l2] && TakeListeners(m'', path).1 == []
  {
    var m1 := AddListenerTo(m, path, l1);
    assert m1[path] == [l1];
    var m2 := AddListenerTo(m1, path, l2);
    assert m2[path] == [l1, l2];
    assert path !in TakeListeners(m2, path).0;
  }

  // ---------------------------------------------------------------------------------------
  // Single flight.

  /** Each loader key stands for exactly one task of the executor, and each task is a loader. */
  ghost predicate SingleFlight(e: Executor, loaders: set<Key>)
  {
    forall k :: Tasks(e)[k] == if k in loaders then 1 else 0
  }

  /** Submitting a loader for a key not in flight keeps one task per key. */
  lemma SubmitKeepsSingleFlight(e: Executor, loaders: set<Key>, k: Key)
    requires LifoExecutor.Valid(e) && SingleFlight(e, loaders) && k !in loaders
    ensures SingleFlight(Submit(e, k), loaders + {k})
  {
    var e' := Submit(e, k);
    forall k' ensures Tasks(e')[k'] == if k' in loaders + {k} then 1 else 0 {
      assert Tasks(e')[k'] == Tasks(e)[k'] + multiset{k}[k'];
    }
  }

  /** A finished loader's key leaves the set as its task leaves the executor. */
  lemma CompleteKeepsSingleFlight(e: Executor, loaders: set<Key>, i: nat)
    requires LifoExecutor.Valid(e) && SingleFlight(e, loaders) && i < |e.running|
    ensures e.running[i] in loaders
    ensures SingleFlight(Complete(e, i), loaders - {e.running[i]})
  {
    var k := e.running[i];
    assert multiset(e.running)[k] > 0;
    var e' := Complete(e, i);
    forall k' ensures Tasks(e')[k'] == if k' in loaders - {k} then 1 else 0 {
      assert Tasks(e')[k'] + multiset{k}[k'] == Tasks(e)[k'];
    }
  }
}
