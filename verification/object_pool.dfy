/**
 * The bounded blocking pool (`AbstractBlockingPool`): `mPool` holds every resource the pool
 * has produced, `mAcquired` the ones on loan and `mAvailable` a FIFO queue of the ones ready
 * for reuse. A resource is an integer handle; `produce` hands out the next unused handle.
 */
module ObjectPool {
  import opened Collections

  type Handle = nat

  /** The two `IllegalArgumentException`s of `release`. */
  datatype PoolError = NotFromPool | NotAcquired

  datatype ReleaseResult = Released | Rejected(error: PoolError)

  /**
   * The pool's bookkeeping. `produced` counts the calls of `produce`; the handles it has
   * handed out are exactly 0 .. produced - 1.
   */
  datatype PoolState = PoolState(
    capacity: int,
    pool: set<Handle>,
    acquired: set<Handle>,
    available: seq<Handle>,
    produced: nat)

  /**
   * What every operation keeps: the pool is the disjoint union of the resources on loan and
   * the queue of available ones, it holds no more than `capacity` resources, and every
   * resource in it came from `produce`.
   */
  predicate Invariant(s: PoolState)
  {
    && s.pool == s.acquired + Elements(s.available)
    && s.acquired !! Elements(s.available)
    && Distinct(s.available)
    && (s.pool == {} || |s.pool| <= s.capacity)
    && (forall h | h in s.pool :: h < s.produced)
  }

  /** `getCreatableAmount`. */
  function CreatableOf(s: PoolState): int
  {
    s.capacity - |s.pool|
  }

  /** `getAvailable`: capacity minus the resources on loan. */
  function AvailableOf(s: PoolState): int
  {
    s.capacity - |s.acquired|
  }

  /** `getUnavailable`: the resources on loan. */
  function UnavailableOf(s: PoolState): int
  {
    |s.acquired|
  }

  /** A pool just constructed with the given capacity. */
  function Fresh(capacity: int): (s: PoolState)
    ensures Invariant(s)
    ensures AvailableOf(s) == capacity && UnavailableOf(s) == 0 && CreatableOf(s) == capacity
  {
    PoolState(capacity, {}, {}, [], 0)
  }

  /**
   * `acquire` returns at once exactly when a resource is queued or the pool may still
   * produce one; otherwise `mAvailable.take()` blocks.
   */
  predicate CanAcquire(s: PoolState)
  {
    |s.available| > 0 || |s.pool| < s.capacity
  }

  /** `acquire`, for a caller that does not block: the new state and the resource handed out. */
  function AcquireStep(s: PoolState): (r: (PoolState, Handle))
    requires CanAcquire(s)
    ensures r.0.capacity == s.capacity
    ensures r.0.acquired == s.acquired + {r.1}
    ensures r.0.produced > s.produced <==> s.available == [] && |s.pool| < s.capacity
    ensures r.0.produced <= s.produced + 1
    ensures s.available != [] ==>
      r.1 == s.available[0] && r.0.available == s.available[1..] && r.0.pool == s.pool
    ensures s.available == [] ==> r.0.available == [] && r.0.pool == s.pool + {r.1}
    ensures s.available == [] ==> r.1 == s.produced && r.0.produced == s.produced + 1
    ensures s.available != [] ==> r.0.produced == s.produced
    ensures Invariant(s) ==> Invariant(r.0) && r.1 !in s.acquired
    ensures Invariant(s) && s.available == [] ==> r.1 !in s.pool
  {
    if s.available == [] && |s.pool| < s.capacity then
      var h := s.produced;
      var t := s.(pool := s.pool + {h}, acquired := s.acquired + {h}, produced := s.produced + 1);
      ProduceKeepsInvariant(s, t, h);
      (t, h)
    else
      var h := s.available[0];
      var t := s.(acquired := s.acquired + {h}, available := s.available[1..]);
      TakeKeepsInvariant(s, t, h);
      (t, h)
  }

  lemma ProduceKeepsInvariant(s: PoolState, t: PoolState, h: Handle)
    requires s.available == [] && |s.pool| < s.capacity && h == s.produced
    requires t == s.(pool := s.pool + {h}, acquired := s.acquired + {h}, produced := s.produced + 1)
    ensures Invariant(s) ==> Invariant(t) && h !in s.pool
  {
    if Invariant(s) {
      assert h !in s.pool;
      assert |t.pool| == |s.pool| + 1;
    }
  }

  lemma TakeKeepsInvariant(s: PoolState, t: PoolState, h: Handle)
    requires s.available != [] && h == s.available[0]
    requires t == s.(acquired := s.acquired + {h}, available := s.available[1..])
    ensures Invariant(s) ==> Invariant(t) && h !in s.acquired
  {
    assert s.available == [h] + s.available[1..];
    assert Elements(s.available) == {h} + Elements(s.available[1..]);
    if Invariant(s) {
      assert h !in Elements(s.available[1..]);
    }
  }

  /** `release`: a foreign resource and a resource not on loan are rejected and change nothing. */
  function ReleaseStep(s: PoolState, h: Handle): (r: (PoolState, ReleaseResult))
    ensures r.1 == Rejected(NotFromPool) <==> h !in s.pool
    ensures r.1 == Rejected(NotAcquired) <==> h in s.pool && h !in s.acquired
    ensures r.1 == Released <==> h in s.pool && h in s.acquired
    ensures r.1.Rejected? ==> r.0 == s
    ensures r.1 == Released ==>
      && r.0.acquired == s.acquired - {h}
      && r.0.available == s.available + [h]
      && r.0.pool == s.pool
      && r.0.capacity == s.capacity && r.0.produced == s.produced
    ensures Invariant(s) ==> Invariant(r.0)
  {
    if h !in s.pool then (s, Rejected(NotFromPool))
    else if h !in s.acquired then (s, Rejected(NotAcquired))
    else
      assert Elements(s.available + [h]) == Elements(s.available) + {h};
      (s.(acquired := s.acquired - {h}, available := s.available + [h]), Released)
  }

  /** `drain`: the pool forgets everything; every later release is of a foreign resource. */
  function DrainStep(s: PoolState): (r: PoolState)
    ensures r.pool == {} && r.acquired == {} && r.available == []
    ensures r.capacity == s.capacity && r.produced == s.produced
    ensures Invariant(r)
    ensures forall h :: ReleaseStep(r, h).1 == Rejected(NotFromPool)
  {
    s.(pool := {}, acquired := {}, available := [])
  }

  /** The pool never holds more than its capacity: `getCreatableAmount() >= 0`. */
  lemma CreatableNonNegative(s: PoolState)
    requires Invariant(s) && s.capacity >= 0
    ensures CreatableOf(s) >= 0
    ensures 0 <= UnavailableOf(s) <= s.capacity && AvailableOf(s) >= 0
  {
    SubsetCard(s.acquired, s.pool);
  }

  /**
   * `acquire` blocks exactly when every resource the capacity allows is on loan; in
   * particular, with the pool filled, one more acquire cannot proceed.
   */
  lemma CanAcquireIff(s: PoolState)
    requires Invariant(s)
    ensures CanAcquire(s) <==> |s.acquired| < s.capacity
  {
    SubsetCard(s.acquired, s.pool);
    if s.available == [] {
      assert s.pool == s.acquired;
    } else {
      assert s.available[0] in s.pool - s.acquired;
      assert s.acquired < s.pool;
      if s.pool != {} {
        assert |s.acquired| < |s.pool| by {
          assert s.pool == s.acquired + (s.pool - s.acquired);
        }
      }
    }
  }

  /** Releasing twice without an acquire in between: the second release is rejected. */
  lemma DoubleReleaseRejected(s: PoolState, h: Handle)
    requires ReleaseStep(s, h).1 == Released
    ensures ReleaseStep(ReleaseStep(s, h).0, h) == (ReleaseStep(s, h).0, Rejected(NotAcquired))
  {
  }

  /** `n` acquires on a pool that has nothing queued and room for `n` more resources. */
  function AcquireTimes(s: PoolState, n: nat): (t: PoolState)
    requires Invariant(s) && s.available == [] && |s.pool| + n <= s.capacity
    ensures Invariant(t) && t.available == [] && t.capacity == s.capacity
    ensures |t.pool| == |s.pool| + n && |t.acquired| == |s.acquired| + n
    ensures t.produced == s.produced + n
    decreases n
  {
    if n == 0 then s
    else
      var r := AcquireStep(s);
      AcquireTimes(r.0, n - 1)
  }

  /**
   * After `i` acquires on a fresh pool: `i` resources on loan, `capacity - i` available,
   * `produce` called exactly `i` times and `capacity - i` still creatable.
   */
  lemma FactoryAcquiring(capacity: int, i: nat)
    requires i <= capacity
    ensures var t := AcquireTimes(Fresh(capacity), i);
      && UnavailableOf(t) == i
      && AvailableOf(t) == capacity - i
      && t.produced == i
      && CreatableOf(t) == capacity - i
  {
  }

  /** One operation on the pool, as some thread issues it. */
  datatype PoolOp = AcquireOp | ReleaseOp(h: Handle) | DrainOp

  /** An acquire takes effect only once it no longer blocks. */
  predicate Enabled(s: PoolState, op: PoolOp)
  {
    op.AcquireOp? ==> CanAcquire(s)
  }

  function Step(s: PoolState, op: PoolOp): PoolState
    requires Enabled(s, op)
  {
    match op
    case AcquireOp => AcquireStep(s).0
    case ReleaseOp(h) => ReleaseStep(s, h).0
    case DrainOp => DrainStep(s)
  }

  /** Every operation of the sequence takes effect in turn. */
  predicate Feasible(s: PoolState, ops: seq<PoolOp>)
    decreases |ops|
  {
    ops == [] || (Enabled(s, ops[0]) && Feasible(Step(s, ops[0]), ops[1..]))
  }

  function Replay(s: PoolState, ops: seq<PoolOp>): PoolState
    requires Feasible(s, ops)
    decreases |ops|
  {
    if ops == [] then s else Replay(Step(s, ops[0]), ops[1..])
  }

  /**
   * After any sequence of operations the bookkeeping holds: `mAcquired` and `mAvailable` are
   * disjoint and make up `mPool`, and the pool never exceeds its capacity.
   */
  lemma {:induction false} ReplayKeepsInvariant(s: PoolState, ops: seq<PoolOp>)
    requires Invariant(s) && Feasible(s, ops)
    ensures Invariant(Replay(s, ops)) && Replay(s, ops).capacity == s.capacity
    ensures s.capacity >= 0 ==> CreatableOf(Replay(s, ops)) >= 0
    decreases |ops|
  {
    if ops != [] {
      var t := Step(s, ops[0]);
      assert Invariant(t) && t.capacity == s.capacity;
      ReplayKeepsInvariant(t, ops[1..]);
    }
    if s.capacity >= 0 {
      CreatableNonNegative(Replay(s, ops));
    }
  }

  /**
   * A drain is final for the resources it forgets: whatever is done with the pool afterwards,
   * `produce` only makes new ones, so releasing any resource produced before the drain is
   * rejected as not coming from this pool.
   */
  lemma DrainedStayForeign(s: PoolState, ops: seq<PoolOp>, h: Handle)
    requires h < s.produced && Feasible(DrainStep(s), ops)
    ensures ReleaseStep(Replay(DrainStep(s), ops), h).1 == Rejected(NotFromPool)
  {
    NewerThan(DrainStep(s), ops, s.produced);
  }

  /** The resources in the pool and the next one to be produced stay at or above `m`. */
  lemma {:induction false} NewerThan(t: PoolState, ops: seq<PoolOp>, m: nat)
    requires Feasible(t, ops) && m <= t.produced && forall x | x in t.pool :: m <= x
    ensures m <= Replay(t, ops).produced && forall x | x in Replay(t, ops).pool :: m <= x
    decreases |ops|
  {
    if ops != [] {
      NewerThan(Step(t, ops[0]), ops[1..], m);
    }
  }

  /** The pool object: the three collections of `AbstractBlockingPool` and the capacity. */
  class BlockingPool {
    const capacity: int
    var pool: set<Handle>
    var acquired: set<Handle>
    var available: seq<Handle>
    var produced: nat

    function State(): PoolState
      reads this
    {
      PoolState(capacity, pool, acquired, available, produced)
    }

    predicate Valid()
      reads this
    {
      Invariant(State())
    }

    constructor (capacity: int)
      ensures State() == Fresh(capacity)
    {
      this.capacity := capacity;
      pool, acquired, available, produced := {}, {}, [], 0;
    }

    /** `produce`: a resource the pool has never handed out before. */
    method Produce() returns (h: Handle)
      modifies this`produced
      ensures h == old(produced) && produced == old(produced) + 1
    {
      h := produced;
      produced := produced + 1;
    }

    /** `acquire`; the blocking `take` is the precondition that something can be handed out. */
    method Acquire() returns (h: Handle)
      requires Valid() && CanAcquire(State())
      modifies this
      ensures (State(), h) == AcquireStep(old(State()))
      ensures Valid()
    {
      if available == [] && |pool| < capacity {
        h := Produce();
        pool := pool + {h};
      } else {
        h := Take();
      }
      acquired := acquired + {h};
    }

    /** `mAvailable.take()` on a non-empty deque. */
    method Take() returns (h: Handle)
      requires available != []
      modifies this`available
      ensures h == old(available[0]) && available == old(available[1..])
    {
      h := available[0];
      available := available[1..];
    }

    /** `release`; the result stands for returning normally or throwing. */
    method Release(h: Handle) returns (r: ReleaseResult)
      requires Valid()
      modifies this
      ensures Valid()
      ensures (State(), r) == ReleaseStep(old(State()), h)
    {
      if h !in pool {
        return Rejected(NotFromPool);
      }
      if h !in acquired {
        return Rejected(NotAcquired);
      }
      acquired := acquired - {h};
      available := available + [h];
      r := Released;
    }

    method Drain()
      requires Valid()
      modifies this
      ensures Valid()
      ensures State() == DrainStep(old(State()))
    {
      pool := {};
      available := [];
      acquired := {};
    }

    function CreatableAmount(): int
      reads this
    {
      CreatableOf(State())
    }

    function Available(): int
      reads this
    {
      AvailableOf(State())
    }

    function Unavailable(): int
      reads this
    {
      UnavailableOf(State())
    }
  }
}
