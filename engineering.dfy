/**
 * The `WarpCore` dispatcher: its constructor, the permit gate it wraps
 * around the caller's worker, and the chunked submit/collect loops of
 * `list_engage` and `dict_engage`, run against the pool oracle of module
 * Dispatch.  Each engage loop is proved to yield exactly what
 * `Dispatch.Engage` describes.
 */
module Engineering {
  import opened Dispatch

  datatype Option<T> = None | Some(value: T)

  /** `threading.BoundedSemaphore`: a permit counter that may never rise above its initial value. */
  class BoundedSemaphore {
    const capacity: nat
    var value: nat

    ghost predicate Valid()
      reads this
    {
      value <= capacity
    }

    constructor (capacity: nat)
      ensures Valid() && this.capacity == capacity && value == capacity
    {
      this.capacity := capacity;
      value := capacity;
    }

    /** `acquire()`: takes one free permit. */
    method Acquire()
      requires Valid() && value > 0
      modifies this
      ensures Valid() && value == old(value) - 1
    {
      value := value - 1;
    }

    /** `release()`: gives a permit back, or reports the ValueError raised when none is held. */
    method Release() returns (ok: bool)
      requires Valid()
      modifies this
      ensures Valid()
      ensures ok <==> old(value) < capacity
      ensures value == if ok then old(value) + 1 else old(value)
    {
      ok := value < capacity;
      if ok {
        value := value + 1;
      }
    }
  }

  /**
   * `for thread in threads: results.append(thread.get(timeout))`: appends
   * what each handle's `get` yields, in handle order, until one raises.
   */
  method Collect<T, R>(threads: seq<Handle<T>>, work: T -> Call<R>, expired: nat -> bool, results: seq<R>)
    returns (r: Engaged<R>)
    ensures var os := Gets(threads, work, expired);
            r == if AllReady(os) then Completed(results + Values(os))
                 else Propagated(os[FirstFailed(os)].failure)
  {
    ghost var os := Gets(threads, work, expired);
    var acc := results;
    var i := 0;
    while i < |threads|
      invariant i <= |threads|
      invariant AllReady(os[..i]) && acc == results + Values(os[..i])
    {
      var o := Get(threads[i], work, expired);
      if o.Failed? {
        FirstFailedAt(os, i);
        return Propagated(o.failure);
      }
      assert os[..i + 1] == os[..i] + [o];
      ValuesConcat(os[..i], [o]);
      acc := acc + [o.value];
      i := i + 1;
    }
    assert os[..i] == os;
    r := Completed(acc);
  }

  class WarpCore {
    var maxThreads: nat
    var chunkSize: nat
    var threadLimiter: BoundedSemaphore

    ghost predicate Valid()
      reads this, threadLimiter
    {
      && chunkSize == maxThreads * 32
      && threadLimiter.capacity == maxThreads
      && threadLimiter.Valid()
    }

    /**
     * `WarpCore(max_parallel)`: the cap is max_parallel when given, else the
     * CPU count; chunks are 32 times the cap; the limiter has cap permits.
     */
    constructor (maxParallel: Option<nat>, cpuCount: nat)
      ensures Valid()
      ensures maxThreads == if maxParallel.Some? then maxParallel.value else cpuCount
      ensures chunkSize == maxThreads * 32
      ensures fresh(threadLimiter) && threadLimiter.capacity == maxThreads
      ensures threadLimiter.value == maxThreads
    {
      var cap := if maxParallel.None? then cpuCount else maxParallel.value;
      maxThreads := cap;
      chunkSize := cap * 32;
      threadLimiter := new BoundedSemaphore(cap);
    }

    /**
     * The wrapper `_thread_decorator` puts around the worker: take a permit,
     * call the worker, give the permit back whether the call returned or
     * raised.  The call's outcome passes through unchanged.
     */
    method FunctionWrapper<T, R>(work: T -> Call<R>, item: T) returns (c: Call<R>)
      requires Valid() && threadLimiter.value > 0
      modifies threadLimiter
      ensures Valid()
      ensures c == work(item)
      ensures threadLimiter.value == old(threadLimiter.value)
    {
      threadLimiter.Acquire();
      c := work(item);
      var released := threadLimiter.Release();
    }

    /**
     * `list_engage(items, worker, timeout)`.  The handle list `threads` is
     * never cleared, so every drain and the mop-up collect all handles
     * submitted so far.  `handles` is the handle list when the call returns
     * or raises: item i was submitted as handle i, and on a failure the call
     * stops at the first drain point after the first failing item.  The
     * pool is given `work` itself rather than the decorated worker:
     * `FunctionWrapper` passes every outcome through unchanged.
     */
    method ListEngage<T, R>(items: seq<T>, work: T -> Call<R>, expired: nat -> bool)
      returns (r: Engaged<R>, ghost handles: seq<Handle<T>>)
      ensures r == Engage(Outcomes(items, work, expired), chunkSize)
      ensures |handles| <= |items| && handles == Handles(items)[..|handles|]
      ensures AllReady(Outcomes(items, work, expired)) ==> |handles| == |items|
      ensures !AllReady(Outcomes(items, work, expired)) ==>
                |handles| == Min(|items|, NextDrain(FirstFailed(Outcomes(items, work, expired)), chunkSize))
    {
      ghost var outs := Outcomes(items, work, expired);
      var results: seq<R> := [];
      var iterations := 0;
      var maxIterations := chunkSize;
      var threads: seq<Handle<T>> := [];
      var k := 0;
      ghost var lo := 0;
      while k < |items|
        invariant k <= |items|
        invariant threads == Handles(items)[..k]
        invariant iterations == SinceDrain(k, maxIterations)
        invariant Submitted(outs, k, maxIterations, lo, results)
      {
        BatchCounter(k, maxIterations);
        if iterations >= maxIterations {
          GetsPrefix(items, work, expired, k);
          var drained := Collect(threads, work, expired, results);
          if drained.Propagated? {
            DrainFailed(outs, k, maxIterations, lo, results);
            return drained, threads;
          }
          DrainPassed(outs, k, maxIterations, lo, results);
          results := drained.results;
          iterations := 0;
          lo := k;
        } else {
          NoDrainStep(outs, k, maxIterations, lo, results);
        }
        SinceDrainStep(k, maxIterations);
        assert Handles(items)[..k + 1] == threads + [Handle(k, items[k])];
        threads := threads + [Handle(k, items[k])];
        iterations := iterations + 1;
        k := k + 1;
      }
      assert threads == Handles(items);
      r := Collect(threads, work, expired, results);
      handles := threads;
      MopUp(outs, maxIterations, lo, results);
    }

    /**
     * `dict_engage(dictionary, worker, timeout)`: the same loop over the
     * `(key, value)` pairs in `items()` order, handle i calling
     * `worker(key_i, value_i)`.
     */
    method DictEngage<K, V, R>(pairs: seq<(K, V)>, work: (K, V) -> Call<R>, expired: nat -> bool)
      returns (r: Engaged<R>, ghost handles: seq<Handle<(K, V)>>)
      requires DistinctKeys(pairs)
      ensures r == Engage(Outcomes(pairs, Spread(work), expired), chunkSize)
      ensures |handles| <= |pairs| && handles == Handles(pairs)[..|handles|]
      ensures AllReady(Outcomes(pairs, Spread(work), expired)) ==> |handles| == |pairs|
      ensures !AllReady(Outcomes(pairs, Spread(work), expired)) ==>
                |handles| == Min(|pairs|, NextDrain(FirstFailed(Outcomes(pairs, Spread(work), expired)), chunkSize))
    {
      var call := Spread(work);
      ghost var outs := Outcomes(pairs, call, expired);
      var results: seq<R> := [];
      var iterations := 0;
      var maxIterations := chunkSize;
      var threads: seq<Handle<(K, V)>> := [];
      var k := 0;
      ghost var lo := 0;
      while k < |pairs|
        invariant k <= |pairs|
        invariant threads == Handles(pairs)[..k]
        invariant iterations == SinceDrain(k, maxIterations)
        invariant Submitted(outs, k, maxIterations, lo, results)
      {
        BatchCounter(k, maxIterations);
        if iterations >= maxIterations {
          GetsPrefix(pairs, call, expired, k);
          var drained := Collect(threads, call, expired, results);
          if drained.Propagated? {
            DrainFailed(outs, k, maxIterations, lo, results);
            return drained, threads;
          }
          DrainPassed(outs, k, maxIterations, lo, results);
          results := drained.results;
          iterations := 0;
          lo := k;
        } else {
          NoDrainStep(outs, k, maxIterations, lo, results);
        }
        SinceDrainStep(k, maxIterations);
        assert Handles(pairs)[..k + 1] == threads + [Handle(k, pairs[k])];
        threads := threads + [Handle(k, pairs[k])];
        iterations := iterations + 1;
        k := k + 1;
      }
      assert threads == Handles(pairs);
      r := Collect(threads, call, expired, results);
      handles := threads;
      MopUp(outs, maxIterations, lo, results);
    }

    /**
     * `list_engage` with `threads` cleared after each drain, as its
     * docstring and tests intend: one result per item, in input order, or
     * the first failing item's failure.
     */
    method ListEngageCorrected<T, R>(items: seq<T>, work: T -> Call<R>, expired: nat -> bool)
      returns (r: Engaged<R>)
      ensures r == Harvest(Outcomes(items, work, expired))
    {
      ghost var outs := Outcomes(items, work, expired);
      var results: seq<R> := [];
      var iterations := 0;
      var maxIterations := chunkSize;
      var threads: seq<Handle<T>> := [];
      var k := 0;
      ghost var lo := 0;
      while k < |items|
        invariant k <= |items|
        invariant iterations == SinceDrain(k, maxIterations)
        invariant lo + iterations == k
        invariant threads == Handles(items)[lo..k]
        invariant AllReady(outs[..lo]) && results == Values(outs[..lo])
      {
        BatchCounter(k, maxIterations);
        if iterations >= maxIterations {
          GetsSlice(items, work, expired, lo, k);
          var drained := Collect(threads, work, expired, results);
          ChunkCollected(outs, lo, k);
          if drained.Propagated? {
            return drained;
          }
          results := drained.results;
          threads := [];
          iterations := 0;
          lo := k;
        }
        SinceDrainStep(k, maxIterations);
        assert Handles(items)[lo..k + 1] == threads + [Handle(k, items[k])];
        threads := threads + [Handle(k, items[k])];
        iterations := iterations + 1;
        k := k + 1;
      }
      GetsSlice(items, work, expired, lo, k);
      r := Collect(threads, work, expired, results);
      ChunkCollected(outs, lo, k);
      assert outs[..k] == outs;
    }

    /** `dict_engage` with `threads` cleared after each drain: one result per pair, in `items()` order. */
    method DictEngageCorrected<K, V, R>(pairs: seq<(K, V)>, work: (K, V) -> Call<R>, expired: nat -> bool)
      returns (r: Engaged<R>)
      requires DistinctKeys(pairs)
      ensures r == Harvest(Outcomes(pairs, Spread(work), expired))
    {
      var call := Spread(work);
      ghost var outs := Outcomes(pairs, call, expired);
      var results: seq<R> := [];
      var iterations := 0;
      var maxIterations := chunkSize;
      var threads: seq<Handle<(K, V)>> := [];
      var k := 0;
      ghost var lo := 0;
      while k < |pairs|
        invariant k <= |pairs|
        invariant iterations == SinceDrain(k, maxIterations)
        invariant lo + iterations == k
        invariant threads == Handles(pairs)[lo..k]
        invariant AllReady(outs[..lo]) && results == Values(outs[..lo])
      {
        BatchCounter(k, maxIterations);
        if iterations >= maxIterations {
          GetsSlice(pairs, call, expired, lo, k);
          var drained := Collect(threads, call, expired, results);
          ChunkCollected(outs, lo, k);
          if drained.Propagated? {
            return drained;
          }
          results := drained.results;
          threads := [];
          iterations := 0;
          lo := k;
        }
        SinceDrainStep(k, maxIterations);
        assert Handles(pairs)[lo..k + 1] == threads + [Handle(k, pairs[k])];
        threads := threads + [Handle(k, pairs[k])];
        iterations := iterations + 1;
        k := k + 1;
      }
      GetsSlice(pairs, call, expired, lo, k);
      r := Collect(threads, call, expired, results);
      ChunkCollected(outs, lo, k);
      assert outs[..k] == outs;
    }
  }

  /**
   * The loop's state after the first k items are submitted: `iterations` of
   * them since the previous drain, which came after item lo; every drain so
   * far returned, so results holds the values the drains collected.
   */
  ghost predicate Submitted<R>(outs: seq<Outcome<R>>, k: nat, c: nat, lo: nat, results: seq<R>)
  {
    && k <= |outs| && lo + SinceDrain(k, c) == k
    && AllReady(outs[..lo])
    && AllReady(Collected(outs, Drains(k, c)))
    && results == Values(Collected(outs, Drains(k, c)))
  }

  /** Submitting item k without a drain: only the counter moves. */
  lemma NoDrainStep<R>(outs: seq<Outcome<R>>, k: nat, c: nat, lo: nat, results: seq<R>)
    requires Submitted(outs, k, c, lo, results) && k < |outs| && !DrainsBefore(k, c)
    ensures Submitted(outs, k + 1, c, lo, results)
  {
    CollectedStep(outs, k, c);
    SinceDrainStep(k, c);
  }

  /** A drain before item k in which every `get` returned appends the values of the first k items. */
  lemma DrainPassed<R>(outs: seq<Outcome<R>>, k: nat, c: nat, lo: nat, results: seq<R>)
    requires Submitted(outs, k, c, lo, results) && k < |outs| && DrainsBefore(k, c)
    requires AllReady(outs[..k])
    ensures Submitted(outs, k + 1, c, k, results + Values(outs[..k]))
  {
    CollectedStep(outs, k, c);
    ValuesConcat(Collected(outs, Drains(k, c)), outs[..k]);
    SinceDrainStep(k, c);
  }

  /**
   * A drain before item k raised: the failure is the first failing item's,
   * which lies among the handles submitted since the previous drain, so the
   * call stops at the first drain point after it.
   */
  lemma DrainFailed<R>(outs: seq<Outcome<R>>, k: nat, c: nat, lo: nat, results: seq<R>)
    requires Submitted(outs, k, c, lo, results) && k < |outs| && DrainsBefore(k, c)
    requires !AllReady(outs[..k])
    ensures !AllReady(outs)
    ensures Engage(outs, c) == Propagated(outs[..k][FirstFailed(outs[..k])].failure)
    ensures k == Min(|outs|, NextDrain(FirstFailed(outs), c))
  {
    var f := FirstFailed(outs[..k]);
    assert outs[f] == outs[..k][f];
    assert forall i :: 0 <= i < f ==> outs[i] == outs[..k][i];
    FirstFailedAt(outs, f);
    assert FirstFailed(outs) == f;
    EngageFirstFailure(outs, c);
    assert forall i :: 0 <= i < lo ==> outs[i] == outs[..lo][i];
    DrainAfterFailure(f, k, c);
  }

  /**
   * The mop-up after the loop: collecting every handle on top of the drains
   * yields Engage, and a failure among the handles submitted since the last
   * drain surfaces with all m items submitted.
   */
  lemma MopUp<R>(outs: seq<Outcome<R>>, c: nat, lo: nat, results: seq<R>)
    requires Submitted(outs, |outs|, c, lo, results)
    ensures Engage(outs, c) ==
              if AllReady(outs) then Completed(results + Values(outs))
              else Propagated(outs[FirstFailed(outs)].failure)
    ensures !AllReady(outs) ==> |outs| == Min(|outs|, NextDrain(FirstFailed(outs), c))
  {
    var m := |outs|;
    var x := Collected(outs, Drains(m, c));
    CollectedSnoc(outs, Drains(m, c), m);
    assert outs[..m] == outs;
    HarvestConcat(x, outs);
    if !AllReady(outs) {
      LateFailure(outs, lo, c);
    }
  }

  /** A failure not among the first lo items, lo + SinceDrain(m, c) == m, comes after the last drain point. */
  lemma LateFailure<R>(outs: seq<Outcome<R>>, lo: nat, c: nat)
    requires lo + SinceDrain(|outs|, c) == |outs| && AllReady(outs[..lo]) && !AllReady(outs)
    ensures NextDrain(FirstFailed(outs), c) >= |outs|
  {
    var f := FirstFailed(outs);
    assert forall i :: 0 <= i < lo ==> outs[i] == outs[..lo][i];
    NoDrainAfterFailure(f, |outs|, c);
  }

  /** Collecting the chunk lo..k on top of the values of items before lo: how the corrected loop advances. */
  lemma ChunkCollected<R>(outs: seq<Outcome<R>>, lo: nat, k: nat)
    requires lo <= k <= |outs| && AllReady(outs[..lo])
    ensures AllReady(outs[lo..k]) ==> AllReady(outs[..k]) && Values(outs[..k]) == Values(outs[..lo]) + Values(outs[lo..k])
    ensures !AllReady(outs[lo..k]) ==>
              Harvest(outs) == Propagated(outs[lo..k][FirstFailed(outs[lo..k])].failure)
  {
    assert outs[..lo] + outs[lo..k] == outs[..k];
    HarvestConcat(outs[..lo], outs[lo..k]);
    if AllReady(outs[lo..k]) {
      ValuesConcat(outs[..lo], outs[lo..k]);
    } else {
      HarvestPrefix(outs, k);
    }
  }
}
