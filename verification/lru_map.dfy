/**
 * The access-ordered `LinkedHashMap` under `LruBucket.LruCache`, as a sequence of entries
 * from the least to the most recently used. A `None` value is the "pending" placeholder
 * that `get` primes a key with.
 */
module LruMap {
  import opened Wrappers
  import opened Keys
  import opened ObjectPool

  datatype Entry = Entry(key: Key, value: Option<Drawable>)

  /** What the map says about a key: unknown, being loaded, or loaded. */
  datatype Slot = Absent | Pending | Resolved(drawable: Drawable)

  function SlotOf(v: Option<Drawable>): Slot
  {
    match v
    case None => Pending
    case Some(d) => Resolved(d)
  }

  function KeySet(s: seq<Entry>): set<Key>
  {
    if s == [] then {} else {s[0].key} + KeySet(s[1..])
  }

  predicate DistinctKeys(s: seq<Entry>)
  {
    s == [] || (s[0].key !in KeySet(s[1..]) && DistinctKeys(s[1..]))
  }

  /** `containsKey` and `get` without the access: the first entry with the key. */
  function Lookup(s: seq<Entry>, k: Key): Slot
  {
    if s == [] then Absent
    else if s[0].key == k then SlotOf(s[0].value)
    else Lookup(s[1..], k)
  }

  /** `remove`. */
  function Remove(s: seq<Entry>, k: Key): seq<Entry>
  {
    if s == [] then []
    else if s[0].key == k then s[1..]
    else [s[0]] + Remove(s[1..], k)
  }

  /** The bitmap a slot holds, as a sequence of zero or one handles. */
  function SlotBitmaps(v: Slot): seq<Handle>
  {
    if v.Resolved? then [v.drawable.bitmap] else []
  }

  /** The pooled bitmaps held by the loaded entries, in map order. */
  function Held(s: seq<Entry>): seq<Handle>
  {
    if s == [] then [] else SlotBitmaps(SlotOf(s[0].value)) + Held(s[1..])
  }

  /** `get` on a present key of an access-ordered map: the entry moves to the most recent end. */
  function Touch(s: seq<Entry>, k: Key): seq<Entry>
  {
    match Lookup(s, k)
    case Absent => s
    case Pending => Remove(s, k) + [Entry(k, None)]
    case Resolved(d) => Remove(s, k) + [Entry(k, Some(d))]
  }

  /**
   * `put` followed by `removeEldestEntry`. A present key takes the new value and becomes
   * the most recent; a new key is appended, and if the map then exceeds its capacity the
   * eldest entry is dropped and returned.
   */
  function Put(s: seq<Entry>, k: Key, v: Option<Drawable>, capacity: nat): (r: (seq<Entry>, Option<Entry>))
    ensures r.1.Some? <==> Lookup(s, k) == Absent && |s| + 1 > capacity
    ensures r.1.Some? ==> r.1.value == (s + [Entry(k, v)])[0]
    ensures DistinctKeys(s) ==> DistinctKeys(r.0)
    ensures DistinctKeys(s) && |s| <= capacity ==> |r.0| <= capacity
    ensures DistinctKeys(s) && (capacity > 0 || Lookup(s, k) != Absent) ==> Lookup(r.0, k) == SlotOf(v)
  {
    PutFacts(s, k, v, capacity);
    if Lookup(s, k) != Absent then
      (Remove(s, k) + [Entry(k, v)], None)
    else
      var t := s + [Entry(k, v)];
      if |t| > capacity then (t[1..], Some(t[0])) else (t, None)
  }

  lemma PutFacts(s: seq<Entry>, k: Key, v: Option<Drawable>, capacity: nat)
    ensures DistinctKeys(s) && Lookup(s, k) != Absent ==>
      var t := Remove(s, k) + [Entry(k, v)];
      DistinctKeys(t) && |t| == |s| && Lookup(t, k) == SlotOf(v)
    ensures DistinctKeys(s) && Lookup(s, k) == Absent ==>
      var t := s + [Entry(k, v)];
      && DistinctKeys(t) && DistinctKeys(t[1..])
      && (capacity > 0 && |t| > capacity ==> Lookup(t[1..], k) == SlotOf(v))
      && Lookup(t, k) == SlotOf(v)
  {
    if DistinctKeys(s) {
      LookupIffKeySet(s, k);
      if Lookup(s, k) != Absent {
        PutPresentFacts(s, k, v);
      } else {
        PutNewFacts(s, k, v, capacity);
      }
    }
  }

  /** Putting a present key: it moves to the most recent end with the new value. */
  lemma PutPresentFacts(s: seq<Entry>, k: Key, v: Option<Drawable>)
    requires DistinctKeys(s) && k in KeySet(s)
    ensures var t := Remove(s, k) + [Entry(k, v)];
      DistinctKeys(t) && |t| == |s| && Lookup(t, k) == SlotOf(v)
  {
    RemoveFacts(s, k);
    DistinctSnoc(Remove(s, k), Entry(k, v));
    LookupAppend(Remove(s, k), [Entry(k, v)], k);
  }

  /** Putting a new key: it is appended, and survives the eviction of the eldest entry. */
  lemma PutNewFacts(s: seq<Entry>, k: Key, v: Option<Drawable>, capacity: nat)
    requires DistinctKeys(s) && k !in KeySet(s) && Lookup(s, k) == Absent
    ensures var t := s + [Entry(k, v)];
      && DistinctKeys(t) && DistinctKeys(t[1..])
      && (capacity > 0 && |t| > capacity ==> Lookup(t[1..], k) == SlotOf(v))
      && Lookup(t, k) == SlotOf(v)
  {
    var t := s + [Entry(k, v)];
    DistinctSnoc(s, Entry(k, v));
    LookupAppend(s, [Entry(k, v)], k);
    if s != [] {
      assert t[1..] == s[1..] + [Entry(k, v)];
      LookupAppend(s[1..], [Entry(k, v)], k);
    }
  }

  lemma {:induction false} KeySetAppend(a: seq<Entry>, b: seq<Entry>)
    ensures KeySet(a + b) == KeySet(a) + KeySet(b)
    decreases |a|
  {
    if a != [] {
      assert (a + b)[0] == a[0] && (a + b)[1..] == a[1..] + b;
      KeySetAppend(a[1..], b);
    } else {
      assert a + b == b;
    }
  }

  /** Appending a key that is not yet present keeps the keys distinct. */
  lemma {:induction false} DistinctSnoc(s: seq<Entry>, e: Entry)
    requires DistinctKeys(s) && e.key !in KeySet(s)
    ensures DistinctKeys(s + [e]) && KeySet(s + [e]) == KeySet(s) + {e.key}
    decreases |s|
  {
    KeySetAppend(s, [e]);
    if s != [] {
      assert (s + [e])[1..] == s[1..] + [e];
      DistinctSnoc(s[1..], e);
    }
  }

  lemma {:induction false} LookupIffKeySet(s: seq<Entry>, k: Key)
    ensures Lookup(s, k) != Absent <==> k in KeySet(s)
    decreases |s|
  {
    if s != [] {
      LookupIffKeySet(s[1..], k);
    }
  }

  lemma {:induction false} LookupAppend(a: seq<Entry>, b: seq<Entry>, k: Key)
    ensures Lookup(a + b, k) == if Lookup(a, k) != Absent then Lookup(a, k) else Lookup(b, k)
    decreases |a|
  {
    if a != [] {
      assert (a + b)[0] == a[0] && (a + b)[1..] == a[1..] + b;
      LookupAppend(a[1..], b, k);
    } else {
      assert a + b == b;
    }
  }

  lemma {:induction false} HeldAppend(a: seq<Entry>, b: seq<Entry>)
    ensures Held(a + b) == Held(a) + Held(b)
    decreases |a|
  {
    if a != [] {
      assert (a + b)[0] == a[0] && (a + b)[1..] == a[1..] + b;
      HeldAppend(a[1..], b);
    } else {
      assert a + b == b;
    }
  }

  /**
   * Removing a key from a map with distinct keys drops exactly that key's entry: the keys
   * stay distinct, the key is gone and the map is one entry shorter if it held the key.
   */
  lemma {:induction false} RemoveFacts(s: seq<Entry>, k: Key)
    requires DistinctKeys(s)
    ensures DistinctKeys(Remove(s, k))
    ensures KeySet(Remove(s, k)) == KeySet(s) - {k}
    ensures |Remove(s, k)| == if k in KeySet(s) then |s| - 1 else |s|
    ensures Lookup(Remove(s, k), k) == Absent
    ensures multiset(Held(Remove(s, k))) + multiset(SlotBitmaps(Lookup(s, k))) == multiset(Held(s))
  {
    RemoveKeys(s, k);
    RemoveHeld(s, k);
    LookupIffKeySet(Remove(s, k), k);
  }

  lemma {:induction false} RemoveKeys(s: seq<Entry>, k: Key)
    requires DistinctKeys(s)
    ensures DistinctKeys(Remove(s, k))
    ensures KeySet(Remove(s, k)) == KeySet(s) - {k}
    ensures |Remove(s, k)| == if k in KeySet(s) then |s| - 1 else |s|
    decreases |s|
  {
    if s != [] && s[0].key != k {
      RemoveKeys(s[1..], k);
      var r := Remove(s, k);
      assert r[0] == s[0] && r[1..] == Remove(s[1..], k);
    }
  }

  /** The bitmaps held shrink by the removed entry's bitmap. */
  lemma {:induction false} RemoveHeld(s: seq<Entry>, k: Key)
    requires DistinctKeys(s)
    ensures multiset(Held(Remove(s, k))) + multiset(SlotBitmaps(Lookup(s, k))) == multiset(Held(s))
    decreases |s|
  {
    if s != [] && s[0].key != k {
      RemoveHeld(s[1..], k);
      var r := Remove(s, k);
      assert r[0] == s[0] && r[1..] == Remove(s[1..], k);
      assert Held(r) == SlotBitmaps(SlotOf(s[0].value)) + Held(Remove(s[1..], k));
    }
  }

  /** Removing one key leaves every other key's slot as it was. */
  lemma {:induction false} LookupRemoveOther(s: seq<Entry>, k: Key, k': Key)
    requires k' != k
    ensures Lookup(Remove(s, k), k') == Lookup(s, k')
    decreases |s|
  {
    if s != [] && s[0].key != k {
      assert Remove(s, k)[1..] == Remove(s[1..], k);
      LookupRemoveOther(s[1..], k, k');
    }
  }

  /** `get` on a present key changes the order only: same keys, same slots, same bitmaps. */
  lemma TouchFacts(s: seq<Entry>, k: Key)
    requires DistinctKeys(s)
    ensures DistinctKeys(Touch(s, k)) && KeySet(Touch(s, k)) == KeySet(s) && |Touch(s, k)| == |s|
    ensures forall k' :: Lookup(Touch(s, k), k') == Lookup(s, k')
    ensures multiset(Held(Touch(s, k))) == multiset(Held(s))
    ensures Lookup(s, k) != Absent ==> Touch(s, k)[|s| - 1].key == k
  {
    TouchKeys(s, k);
    TouchHeld(s, k);
    forall k' ensures Lookup(Touch(s, k), k') == Lookup(s, k') {
      TouchLookup(s, k, k');
    }
  }

  /** The entry a present key is moved with: same key, same value. */
  function Moved(k: Key, v: Slot): Entry
  {
    Entry(k, if v.Resolved? then Some(v.drawable) else None)
  }

  lemma TouchKeys(s: seq<Entry>, k: Key)
    requires DistinctKeys(s)
    ensures DistinctKeys(Touch(s, k)) && KeySet(Touch(s, k)) == KeySet(s) && |Touch(s, k)| == |s|
    ensures Lookup(s, k) != Absent ==> Touch(s, k)[|s| - 1].key == k
  {
    var v := Lookup(s, k);
    if v != Absent {
      var e := Moved(k, v);
      assert Touch(s, k) == Remove(s, k) + [e];
      RemoveKeys(s, k);
      LookupIffKeySet(s, k);
      DistinctSnoc(Remove(s, k), e);
    }
  }

  lemma TouchHeld(s: seq<Entry>, k: Key)
    requires DistinctKeys(s)
    ensures multiset(Held(Touch(s, k))) == multiset(Held(s))
  {
    var v := Lookup(s, k);
    if v != Absent {
      var e := Moved(k, v);
      assert Touch(s, k) == Remove(s, k) + [e];
      RemoveHeld(s, k);
      HeldAppend(Remove(s, k), [e]);
      assert Held([e]) == SlotBitmaps(v);
    }
  }

  lemma TouchLookup(s: seq<Entry>, k: Key, k': Key)
    requires DistinctKeys(s)
    ensures Lookup(Touch(s, k), k') == Lookup(s, k')
  {
    var v := Lookup(s, k);
    if v != Absent {
      var e := Moved(k, v);
      assert Lookup([e], k) == v;
      assert Touch(s, k) == Remove(s, k) + [e];
      LookupAppend(Remove(s, k), [e], k');
      if k' != k {
        LookupRemoveOther(s, k, k');
      } else {
        RemoveLookupSame(s, k);
      }
    }
  }

  /** Removing the first entry with a key leaves no entry with that key when keys are distinct. */
  lemma RemoveLookupSame(s: seq<Entry>, k: Key)
    ensures DistinctKeys(s) ==> Lookup(Remove(s, k), k) == Absent
  {
    if DistinctKeys(s) {
      RemoveKeys(s, k);
      LookupIffKeySet(Remove(s, k), k);
    }
  }

  /** After a put, every key other than the one put and the one evicted keeps its slot. */
  lemma PutOther(s: seq<Entry>, k: Key, v: Option<Drawable>, capacity: nat, k': Key)
    requires DistinctKeys(s) && k' != k
    requires Put(s, k, v, capacity).1.Some? ==> k' != Put(s, k, v, capacity).1.value.key
    ensures Lookup(Put(s, k, v, capacity).0, k') == Lookup(s, k')
  {
    var e := Entry(k, v);
    if Lookup(s, k) != Absent {
      LookupAppend(Remove(s, k), [e], k');
      LookupRemoveOther(s, k, k');
    } else {
      var t := s + [e];
      LookupAppend(s, [e], k');
      if |t| > capacity {
        assert t == [t[0]] + t[1..];
      }
    }
  }

  /**
   * A put leaves every other key's slot as it was, except that the evicted key, if any, is
   * gone from the map.
   */
  lemma PutOtherSlot(s: seq<Entry>, k: Key, v: Option<Drawable>, capacity: nat, k': Key)
    requires DistinctKeys(s) && k' != k
    ensures Lookup(Put(s, k, v, capacity).0, k') == Lookup(s, k') || Lookup(Put(s, k, v, capacity).0, k') == Absent
  {
    var r := Put(s, k, v, capacity);
    if r.1.Some? && k' == r.1.value.key {
      var t := s + [Entry(k, v)];
      assert r == (t[1..], Some(t[0]));
      PutFacts(s, k, v, capacity);
      assert t[0].key !in KeySet(t[1..]);
      LookupIffKeySet(t[1..], k');
    } else {
      PutOther(s, k, v, capacity, k');
    }
  }

  /** Each entry holds at most one bitmap. */
  lemma {:induction false} HeldSize(s: seq<Entry>)
    ensures |Held(s)| <= |s|
    decreases |s|
  {
    if s != [] {
      HeldSize(s[1..]);
    }
  }

  /** The bitmap an evicted entry hands back to the pool, if it holds one. */
  function EvictedBitmaps(evicted: Option<Entry>): seq<Handle>
  {
    if evicted.Some? then SlotBitmaps(SlotOf(evicted.value.value)) else []
  }

  /**
   * The bitmaps after a put: the new value's bitmap comes in, the replaced value's bitmap
   * and the evicted entry's bitmap go out.
   */
  lemma PutHeld(s: seq<Entry>, k: Key, v: Option<Drawable>, capacity: nat)
    requires DistinctKeys(s)
    ensures var r := Put(s, k, v, capacity);
      multiset(Held(r.0)) + multiset(SlotBitmaps(Lookup(s, k))) + multiset(EvictedBitmaps(r.1))
      == multiset(Held(s)) + multiset(SlotBitmaps(SlotOf(v)))
  {
    var e := Entry(k, v);
    var r := Put(s, k, v, capacity);
    if Lookup(s, k) != Absent {
      assert r == (Remove(s, k) + [e], None);
      RemoveHeld(s, k);
      SnocHeld(Remove(s, k), e);
    } else {
      NewKeyHeld(s, e, capacity, r);
    }
  }

  /** The bitmaps after a put of a new key, with or without an eviction. */
  lemma NewKeyHeld(s: seq<Entry>, e: Entry, capacity: nat, r: (seq<Entry>, Option<Entry>))
    requires Lookup(s, e.key) == Absent && r == Put(s, e.key, e.value, capacity)
    ensures multiset(Held(r.0)) + multiset(EvictedBitmaps(r.1)) == multiset(Held(s)) + multiset(SlotBitmaps(SlotOf(e.value)))
  {
    var t := s + [e];
    SnocHeld(s, e);
    if |t| > capacity {
      assert r == (t[1..], Some(t[0]));
      assert Held(t) == SlotBitmaps(SlotOf(t[0].value)) + Held(t[1..]);
    } else {
      assert r == (t, None);
    }
  }

  lemma SnocHeld(s: seq<Entry>, e: Entry)
    ensures multiset(Held(s + [e])) == multiset(Held(s)) + multiset(SlotBitmaps(SlotOf(e.value)))
  {
    HeldAppend(s, [e]);
    assert Held([e]) == SlotBitmaps(SlotOf(e.value));
  }

  // ---------------------------------------------------------------------------------------
  // Access order: the map is ordered by the time each key was last used.

  /**
   * Each key of the map has a time of last use, and those times increase from the eldest
   * entry to the most recent one.
   */
  predicate UseOrdered(s: seq<Entry>, lastUse: map<Key, nat>)
  {
    s == [] ||
      (&& s[0].key in lastUse
       && (forall k | k in KeySet(s[1..]) :: k in lastUse && lastUse[s[0].key] < lastUse[k])
       && UseOrdered(s[1..], lastUse))
  }

  lemma {:induction false} KeySetRemove(s: seq<Entry>, k: Key)
    ensures KeySet(Remove(s, k)) <= KeySet(s)
    decreases |s|
  {
    if s != [] {
      KeySetRemove(s[1..], k);
      if s[0].key != k {
        assert Remove(s, k)[1..] == Remove(s[1..], k);
      }
    }
  }

  lemma {:induction false} UseOrderedRemove(s: seq<Entry>, k: Key, lastUse: map<Key, nat>)
    requires UseOrdered(s, lastUse)
    ensures UseOrdered(Remove(s, k), lastUse)
    decreases |s|
  {
    if s != [] && s[0].key != k {
      UseOrderedRemove(s[1..], k, lastUse);
      KeySetRemove(s[1..], k);
      assert Remove(s, k)[1..] == Remove(s[1..], k);
    }
  }

  lemma {:induction false} UseOrderedSnoc(s: seq<Entry>, e: Entry, lastUse: map<Key, nat>)
    requires UseOrdered(s, lastUse) && e.key in lastUse
    requires forall k | k in KeySet(s) :: k in lastUse && lastUse[k] < lastUse[e.key]
    ensures UseOrdered(s + [e], lastUse)
    decreases |s|
  {
    if s == [] {
      assert [e][1..] == [];
    } else {
      assert (s + [e])[1..] == s[1..] + [e];
      KeySetAppend(s[1..], [e]);
      UseOrderedSnoc(s[1..], e, lastUse);
    }
  }

  /** Stamping a key that is not in the map leaves the order intact. */
  lemma {:induction false} UseOrderedStamp(s: seq<Entry>, lastUse: map<Key, nat>, k: Key, t: nat)
    requires UseOrdered(s, lastUse) && k !in KeySet(s)
    ensures UseOrdered(s, lastUse[k := t])
    decreases |s|
  {
    if s != [] {
      UseOrderedStamp(s[1..], lastUse, k, t);
    }
  }

  /** Every key of the map has a use time, all earlier than `now`. */
  predicate StampedBefore(s: seq<Entry>, lastUse: map<Key, nat>, now: nat)
  {
    forall k | k in KeySet(s) :: k in lastUse && lastUse[k] < now
  }

  /** `get` on a present key makes it the most recently used, the others keep their order. */
  lemma TouchKeepsUseOrder(s: seq<Entry>, k: Key, lastUse: map<Key, nat>, now: nat)
    requires DistinctKeys(s) && UseOrdered(s, lastUse) && StampedBefore(s, lastUse, now)
    ensures UseOrdered(Touch(s, k), lastUse[k := now])
  {
    var v := Lookup(s, k);
    if v == Absent {
      LookupIffKeySet(s, k);
      UseOrderedStamp(s, lastUse, k, now);
    } else {
      var e := Moved(k, v);
      assert Touch(s, k) == Remove(s, k) + [e];
      RemoveFacts(s, k);
      UseOrderedRemove(s, k, lastUse);
      UseOrderedStamp(Remove(s, k), lastUse, k, now);
      UseOrderedSnoc(Remove(s, k), e, lastUse[k := now]);
    }
  }

  lemma {:induction false} UseOrderedTail(s: seq<Entry>, lastUse: map<Key, nat>)
    requires UseOrdered(s, lastUse) && s != []
    ensures UseOrdered(s[1..], lastUse)
  {
  }

  /** `put` makes the key put the most recently used, the others keep their order. */
  lemma PutKeepsUseOrder(s: seq<Entry>, k: Key, v: Option<Drawable>, capacity: nat, lastUse: map<Key, nat>, now: nat)
    requires DistinctKeys(s) && UseOrdered(s, lastUse) && StampedBefore(s, lastUse, now)
    ensures UseOrdered(Put(s, k, v, capacity).0, lastUse[k := now])
  {
    var e := Entry(k, v);
    if Lookup(s, k) != Absent {
      RemoveFacts(s, k);
      UseOrderedRemove(s, k, lastUse);
      UseOrderedStamp(Remove(s, k), lastUse, k, now);
      UseOrderedSnoc(Remove(s, k), e, lastUse[k := now]);
    } else {
      LookupIffKeySet(s, k);
      UseOrderedStamp(s, lastUse, k, now);
      UseOrderedSnoc(s, e, lastUse[k := now]);
      var t := s + [e];
      if |t| > capacity {
        UseOrderedTail(t, lastUse[k := now]);
      }
    }
  }

  /** `remove` keeps the order of the keys that stay. */
  lemma RemoveKeepsUseOrder(s: seq<Entry>, k: Key, lastUse: map<Key, nat>, now: nat)
    requires DistinctKeys(s) && UseOrdered(s, lastUse)
    ensures UseOrdered(Remove(s, k), lastUse[k := now])
  {
    RemoveFacts(s, k);
    UseOrderedRemove(s, k, lastUse);
    UseOrderedStamp(Remove(s, k), lastUse, k, now);
  }

  /** One operation of the bucket on its map. */
  datatype Access = GetKey(k: Key) | PutKey(k: Key, v: Option<Drawable>) | RemoveKey(k: Key)

  function AccessKey(a: Access): Key
  {
    match a
    case GetKey(k) => k
    case PutKey(k, _) => k
    case RemoveKey(k) => k
  }

  function Apply(s: seq<Entry>, a: Access, capacity: nat): seq<Entry>
  {
    match a
    case GetKey(k) => Touch(s, k)
    case PutKey(k, v) => Put(s, k, v, capacity).0
    case RemoveKey(k) => Remove(s, k)
  }

  /** The map after a history of operations on an empty map. */
  function Run(history: seq<Access>, capacity: nat): seq<Entry>
    decreases |history|
  {
    if history == [] then [] else Apply(Run(history[..|history| - 1], capacity), history[|history| - 1], capacity)
  }

  /** For each key, the position in the history of the last operation on it. */
  function LastUse(history: seq<Access>): (m: map<Key, nat>)
    ensures forall k | k in m :: m[k] < |history|
    decreases |history|
  {
    if history == [] then map[]
    else LastUse(history[..|history| - 1])[AccessKey(history[|history| - 1]) := |history| - 1]
  }

  /**
   * After any history the map is ordered by last use, so the eldest entry, the one a put
   * evicts, is the least recently used key.
   */
  lemma {:induction false} RunIsUseOrdered(history: seq<Access>, capacity: nat)
    ensures var s := Run(history, capacity);
      DistinctKeys(s) && UseOrdered(s, LastUse(history)) && StampedBefore(s, LastUse(history), |history|)
    decreases |history|
  {
    if history != [] {
      var n := |history| - 1;
      var prev := history[..n];
      RunIsUseOrdered(prev, capacity);
      var s := Run(prev, capacity);
      var a := history[n];
      var k := AccessKey(a);
      var use := LastUse(prev);
      var s' := Apply(s, a, capacity);
      match a {
        case GetKey(_) =>
          TouchKeepsUseOrder(s, k, use, n);
          TouchFacts(s, k);
        case PutKey(_, v) =>
          PutKeepsUseOrder(s, k, v, capacity, use, n);
          KeySetPut(s, k, v, capacity);
        case RemoveKey(_) =>
          RemoveKeepsUseOrder(s, k, use, n);
          RemoveFacts(s, k);
      }
    }
  }

  lemma KeySetPut(s: seq<Entry>, k: Key, v: Option<Drawable>, capacity: nat)
    requires DistinctKeys(s)
    ensures KeySet(Put(s, k, v, capacity).0) <= KeySet(s) + {k}
  {
    var e := Entry(k, v);
    if Lookup(s, k) != Absent {
      KeySetRemove(s, k);
      KeySetAppend(Remove(s, k), [e]);
    } else {
      KeySetAppend(s, [e]);
      var t := s + [e];
      if |t| > capacity {
        assert t == [t[0]] + t[1..];
      }
    }
  }

  /**
   * The entry a put evicts is the least recently used key of the map: every other key was
   * used later.
   */
  lemma EvictsLeastRecentlyUsed(history: seq<Access>, capacity: nat, k: Key, v: Option<Drawable>)
    requires Put(Run(history, capacity), k, v, capacity).1.Some?
    requires Run(history, capacity) != []
    ensures var s := Run(history, capacity);
      var evicted := Put(s, k, v, capacity).1.value.key;
      && evicted in KeySet(s) && evicted in LastUse(history)
      && forall k' | k' in KeySet(s) && k' != evicted :: k' in LastUse(history) && LastUse(history)[evicted] < LastUse(history)[k']
  {
    RunIsUseOrdered(history, capacity);
  }

  /**
   * The scenario of a two-entry cache: A, B and C are put in that order and B is read
   * after being put; putting C evicts A, the one not used since it was put.
   */
  lemma EvictionScenario(a: Key, b: Key, c: Key, da: Drawable, db: Drawable, dc: Drawable)
    requires a != b && b != c && a != c
    ensures var s1 := Put([], a, Some(da), 2).0;
      var s2 := Put(s1, b, Some(db), 2).0;
      var s3 := Touch(s2, b);
      var r := Put(s3, c, Some(dc), 2);
      r.1 == Some(Entry(a, Some(da))) && r.0 == [Entry(b, Some(db)), Entry(c, Some(dc))]
  {
    var s1 := Put([], a, Some(da), 2).0;
    assert s1 == [Entry(a, Some(da))];
    var s2 := Put(s1, b, Some(db), 2).0;
    assert s2 == [Entry(a, Some(da)), Entry(b, Some(db))];
    assert Lookup(s2, b) == Resolved(db);
    assert Remove(s2, b) == [Entry(a, Some(da))];
    var s3 := Touch(s2, b);
    assert s3 == s2;
    assert s3[1..] == [Entry(b, Some(db))] && s3[1..][1..] == [];
    assert Lookup(s3[1..], c) == Absent;
    assert Lookup(s3, c) == Absent;
    var t := s3 + [Entry(c, Some(dc))];
    assert |t| == 3;
    assert Put(s3, c, Some(dc), 2) == (t[1..], Some(t[0]));
  }
}
