/**
 * The dispatcher's pool, abstracted as a per-item oracle, and a declarative
 * description of what one `list_engage` / `dict_engage` call yields.
 *
 * The i-th item handed to `apply_async` gets handle `Handle(i, item)`; `get`
 * on that handle yields the worker's return value, the exception the worker
 * raised, or a timeout, and that outcome is fixed per handle.  A drain
 * collects EVERY handle submitted so far (the handle list is never cleared),
 * so an engage call collects a sequence of prefixes of the per-item outcome
 * list: one prefix per drain point, then the whole list at the final mop-up.
 */
module Dispatch {

  /** One call of the caller's worker: it returns a value or raises. */
  datatype Call<R> = Returns(value: R) | Raises(exception: string)

  /** Why `get` raised instead of returning a value. */
  datatype Failure = WorkerRaised(exception: string) | TimeoutExceeded

  /** What `get(timeout)` yields for one pending handle. */
  datatype Outcome<R> = Ready(value: R) | Failed(failure: Failure)

  /** The pending handle `apply_async` returns for the index-th submitted item. */
  datatype Handle<T> = Handle(index: nat, item: T)

  /** How an engage call ends: it returns its result list, or a failure propagates out of it. */
  datatype Engaged<R> = Completed(results: seq<R>) | Propagated(failure: Failure)

  /**
   * `get(timeout)` on handle h: `expired(i)` says whether waiting on the
   * i-th handle exceeds the timeout (never, when no timeout is given).
   */
  function Get<T, R>(h: Handle<T>, work: T -> Call<R>, expired: nat -> bool): Outcome<R>
  {
    if expired(h.index) then Failed(TimeoutExceeded)
    else match work(h.item)
      case Returns(v) => Ready(v)
      case Raises(e) => Failed(WorkerRaised(e))
  }

  /** The handles of a whole input, in submission order. */
  function Handles<T>(items: seq<T>): (hs: seq<Handle<T>>)
    ensures |hs| == |items|
    ensures forall i :: 0 <= i < |hs| ==> hs[i] == Handle(i, items[i])
  {
    seq(|items|, i requires 0 <= i < |items| => Handle(i, items[i]))
  }

  /** What `get` yields for each of the handles hs, in order. */
  function Gets<T, R>(hs: seq<Handle<T>>, work: T -> Call<R>, expired: nat -> bool): (os: seq<Outcome<R>>)
    ensures |os| == |hs|
    ensures forall i :: 0 <= i < |hs| ==> os[i] == Get(hs[i], work, expired)
  {
    seq(|hs|, i requires 0 <= i < |hs| => Get(hs[i], work, expired))
  }

  /** `worker(key, value)` seen as a worker of one `(key, value)` pair, as `dict_engage` submits it. */
  function Spread<K, V, R>(work: (K, V) -> Call<R>): ((K, V)) -> Call<R>
  {
    (p: (K, V)) => work(p.0, p.1)
  }

  /** The key of a `(key, value)` pair. */
  function Key<K, V>(p: (K, V)): K
  {
    p.0
  }

  /** The pairs of a dictionary's `items()`: no key occurs twice. */
  predicate DistinctKeys<K(==), V>(pairs: seq<(K, V)>)
  {
    forall i, j :: 0 <= i < j < |pairs| ==> Key(pairs[i]) != Key(pairs[j])
  }

  /** The per-item outcome list of an input: entry i is what `get` yields for item i. */
  function Outcomes<T, R>(items: seq<T>, work: T -> Call<R>, expired: nat -> bool): seq<Outcome<R>>
  {
    Gets(Handles(items), work, expired)
  }

  lemma OutcomesAt<T, R>(items: seq<T>, work: T -> Call<R>, expired: nat -> bool, i: nat)
    requires i < |items|
    ensures |Outcomes(items, work, expired)| == |items|
    ensures Outcomes(items, work, expired)[i].Ready? <==> !expired(i) && work(items[i]).Returns?
    ensures Outcomes(items, work, expired)[i].Ready? ==>
              Outcomes(items, work, expired)[i].value == work(items[i]).value
  {
    assert Handles(items)[i] == Handle(i, items[i]);
  }

  /** Collecting the handles of items lo..hi yields the matching slice of the outcome list. */
  lemma GetsSlice<T, R>(items: seq<T>, work: T -> Call<R>, expired: nat -> bool, lo: nat, hi: nat)
    requires lo <= hi <= |items|
    ensures Gets(Handles(items)[lo..hi], work, expired) == Outcomes(items, work, expired)[lo..hi]
  {
  }

  /** Collecting the handles of the first k items yields the first k outcomes. */
  lemma GetsPrefix<T, R>(items: seq<T>, work: T -> Call<R>, expired: nat -> bool, k: nat)
    requires k <= |items|
    ensures Gets(Handles(items)[..k], work, expired) == Outcomes(items, work, expired)[..k]
  {
  }

  predicate AllReady<R>(os: seq<Outcome<R>>)
  {
    forall i :: 0 <= i < |os| ==> os[i].Ready?
  }

  /** The values of an outcome list in which every `get` returned. */
  function Values<R>(os: seq<Outcome<R>>): (vs: seq<R>)
    requires AllReady(os)
    ensures |vs| == |os|
    ensures forall i :: 0 <= i < |os| ==> vs[i] == os[i].value
  {
    seq(|os|, i requires 0 <= i < |os| => os[i].value)
  }

  /** The position of the first `get` that raises. */
  function FirstFailed<R>(os: seq<Outcome<R>>): (f: nat)
    requires !AllReady(os)
    ensures f < |os| && os[f].Failed?
    ensures forall i :: 0 <= i < f ==> os[i].Ready?
  {
    if os[0].Failed? then 0
    else
      assert !AllReady(os[1..]) by {
        var j :| 0 <= j < |os| && !os[j].Ready?;
        assert os[1..][j - 1] == os[j];
      }
      1 + FirstFailed(os[1..])
  }

  /** Collecting os in order: every value, or the first failure, which stops the collection. */
  function Harvest<R>(os: seq<Outcome<R>>): Engaged<R>
  {
    if AllReady(os) then Completed(Values(os)) else Propagated(os[FirstFailed(os)].failure)
  }

  /** The first failure is the failing entry before which everything is ready. */
  lemma FirstFailedAt<R>(os: seq<Outcome<R>>, j: nat)
    requires j < |os| && os[j].Failed?
    requires forall i :: 0 <= i < j ==> os[i].Ready?
    ensures !AllReady(os) && FirstFailed(os) == j
  {
  }

  lemma ValuesConcat<R>(x: seq<Outcome<R>>, y: seq<Outcome<R>>)
    requires AllReady(x) && AllReady(y)
    ensures AllReady(x + y) && Values(x + y) == Values(x) + Values(y)
  {
    assert forall i :: 0 <= i < |x + y| ==> (x + y)[i] == if i < |x| then x[i] else y[i - |x|];
  }

  /** Collecting x then y: x's first failure, else y's, else all the values. */
  lemma HarvestConcat<R>(x: seq<Outcome<R>>, y: seq<Outcome<R>>)
    ensures Harvest(x + y) ==
              if !AllReady(x) then Harvest(x)
              else if AllReady(y) then Completed(Values(x) + Values(y))
              else Harvest(y)
  {
    var xy := x + y;
    assert forall i :: 0 <= i < |x| ==> xy[i] == x[i];
    assert forall i :: 0 <= i < |y| ==> xy[|x| + i] == y[i];
    if !AllReady(x) {
      FirstFailedAt(xy, FirstFailed(x));
    } else if AllReady(y) {
      ValuesConcat(x, y);
    } else {
      var g := FirstFailed(y);
      forall i | 0 <= i < |x| + g ensures xy[i].Ready? {
        if i >= |x| { assert xy[i] == y[i - |x|]; }
      }
      FirstFailedAt(xy, |x| + g);
    }
  }

  /** A prefix that holds a failure fails exactly as the whole list does. */
  lemma HarvestPrefix<R>(os: seq<Outcome<R>>, d: nat)
    requires d <= |os| && !AllReady(os[..d])
    ensures !AllReady(os) && Harvest(os[..d]) == Harvest(os)
  {
    HarvestConcat(os[..d], os[d..]);
    assert os[..d] + os[d..] == os;
  }

  // ----- Batching: when the loop drains -----

  /**
   * Whether the loop drains before submitting the item at position j
   * (0-based) when the chunk size is c: `iterations >= c` holds then.
   */
  predicate DrainsBefore(j: nat, c: nat)
  {
    c == 0 || (j > 0 && j % c == 0)
  }

  /** The drain points of the first m items, in increasing order. */
  function Drains(m: nat, c: nat): (ds: seq<nat>)
    ensures forall i :: 0 <= i < |ds| ==> ds[i] < m && DrainsBefore(ds[i], c)
  {
    if m == 0 then [] else Drains(m - 1, c) + (if DrainsBefore(m - 1, c) then [m - 1] else [])
  }

  /**
   * How many handles each collection pass gets: one pass per drain point
   * (all handles submitted so far), then the final mop-up of all m.
   */
  function Schedule(m: nat, c: nat): (s: seq<nat>)
    ensures forall i :: 0 <= i < |s| ==> s[i] <= m
  {
    Drains(m, c) + [m]
  }

  /** The outcomes the passes of sched collect, in collection order. */
  function Collected<R>(outs: seq<Outcome<R>>, sched: seq<nat>): seq<Outcome<R>>
    requires forall i :: 0 <= i < |sched| ==> sched[i] <= |outs|
  {
    if sched == [] then []
    else Collected(outs, sched[..|sched| - 1]) + outs[..sched[|sched| - 1]]
  }

  /**
   * What an engage call over per-item outcomes outs yields with chunk size c:
   * the passes of the schedule are collected in order and the first failure
   * stops the call.
   */
  function Engage<R>(outs: seq<Outcome<R>>, c: nat): Engaged<R>
  {
    Harvest(Collected(outs, Schedule(|outs|, c)))
  }

  lemma CollectedSnoc<R>(outs: seq<Outcome<R>>, s: seq<nat>, d: nat)
    requires forall i :: 0 <= i < |s| ==> s[i] <= |outs|
    requires d <= |outs|
    ensures Collected(outs, s + [d]) == Collected(outs, s) + outs[..d]
  {
    assert (s + [d])[..|s|] == s;
  }

  /** One more item: the collected outcomes grow by a pass exactly when the loop drains before it. */
  lemma CollectedStep<R>(outs: seq<Outcome<R>>, k: nat, c: nat)
    requires k < |outs|
    ensures Collected(outs, Drains(k + 1, c)) ==
              Collected(outs, Drains(k, c)) + (if DrainsBefore(k, c) then outs[..k] else [])
  {
    if DrainsBefore(k, c) {
      CollectedSnoc(outs, Drains(k, c), k);
    } else {
      assert Drains(k + 1, c) == Drains(k, c);
    }
  }

  /** Every pass collects a prefix, so the collected outcomes are all ready or fail as outs does. */
  lemma {:induction false} CollectedFailsAsOuts<R>(outs: seq<Outcome<R>>, s: seq<nat>)
    requires forall i :: 0 <= i < |s| ==> s[i] <= |outs|
    ensures AllReady(outs) ==> AllReady(Collected(outs, s))
    ensures AllReady(Collected(outs, s)) || Harvest(Collected(outs, s)) == Harvest(outs)
  {
    if s != [] {
      var init := s[..|s| - 1];
      var d := s[|s| - 1];
      CollectedFailsAsOuts(outs, init);
      var x := Collected(outs, init);
      HarvestConcat(x, outs[..d]);
      if AllReady(outs) {
        ValuesConcat(x, outs[..d]);
      }
      if AllReady(x) && !AllReady(outs[..d]) {
        HarvestPrefix(outs, d);
      }
    }
  }

  /**
   * Failure propagation: the call raises exactly when some item's `get`
   * raises, and then it raises the failure of the first such item; when it
   * returns, its result list holds values only.
   */
  lemma EngageFirstFailure<R>(outs: seq<Outcome<R>>, c: nat)
    ensures Engage(outs, c).Propagated? <==> !AllReady(outs)
    ensures !AllReady(outs) ==> Engage(outs, c) == Propagated(outs[FirstFailed(outs)].failure)
  {
    var x := Collected(outs, Drains(|outs|, c));
    CollectedSnoc(outs, Drains(|outs|, c), |outs|);
    assert outs[..|outs|] == outs;
    CollectedFailsAsOuts(outs, Drains(|outs|, c));
    HarvestConcat(x, outs);
  }

  // ----- The batch counter -----

  /** Items submitted since the last drain, after the first k items: the loop's `iterations`. */
  function SinceDrain(k: nat, c: nat): nat
  {
    if k == 0 then 0 else if c == 0 then 1 else (k - 1) % c + 1
  }

  lemma {:induction false} MulAtLeast(d: nat, c: nat)
    requires d >= 1
    ensures d * c >= c
  {
    if d > 1 {
      MulAtLeast(d - 1, c);
      assert d * c == (d - 1) * c + c;
    }
  }

  lemma MulGap(a: int, b: int, c: nat)
    requires a < b
    ensures a * c + c <= b * c
  {
    MulAtLeast(b - a, c);
    assert b * c == a * c + (b - a) * c;
  }

  /** Euclidean division is determined by its quotient and remainder. */
  lemma DivMod(n: nat, c: nat, q: nat, r: nat)
    requires 0 <= r < c && n == q * c + r
    ensures n / c == q && n % c == r
  {
    var q', r' := n / c, n % c;
    assert n == q' * c + r';
    if q < q' {
      MulGap(q, q', c);
    } else if q' < q {
      MulGap(q', q, c);
    }
  }

  /**
   * The batch counter: after k >= 1 submissions it lies in 1..c (1 when c
   * is 0), and the loop drains before item k exactly when c items have been
   * submitted since the previous drain.
   */
  lemma BatchCounter(k: nat, c: nat)
    ensures SinceDrain(k, c) <= k
    ensures k >= 1 ==> 1 <= SinceDrain(k, c) && (c >= 1 ==> SinceDrain(k, c) <= c)
    ensures SinceDrain(k, c) >= c <==> DrainsBefore(k, c)
  {
    if k >= 1 && c >= 1 {
      var q, r := (k - 1) / c, (k - 1) % c;
      if r == c - 1 {
        DivMod(k, c, q + 1, 0);
      } else {
        DivMod(k, c, q, r + 1);
      }
    }
  }

  /** The counter is reset only at a drain and bumped after every submission. */
  lemma SinceDrainStep(k: nat, c: nat)
    ensures SinceDrain(k + 1, c) == (if DrainsBefore(k, c) then 0 else SinceDrain(k, c)) + 1
  {
    if k >= 1 && c >= 1 {
      var q, r := (k - 1) / c, (k - 1) % c;
      if r == c - 1 {
        DivMod(k, c, q + 1, 0);
      } else {
        DivMod(k, c, q, r + 1);
      }
    }
  }

  // ----- Where a failure surfaces -----

  function Min(a: nat, b: nat): nat
  {
    if a <= b then a else b
  }

  /** The first drain point after position f: where a failure of item f is collected, if the input is long enough. */
  function NextDrain(f: nat, c: nat): (d: nat)
    ensures f < d
    ensures c >= 1 ==> d % c == 0 && d - c <= f
  {
    if c == 0 then f + 1
    else
      var q := f / c;
      DivMod((q + 1) * c, c, q + 1, 0);
      (q + 1) * c
  }

  /** A failure among the handles drained before item k, not among those drained earlier, is collected at k. */
  lemma DrainAfterFailure(f: nat, k: nat, c: nat)
    requires DrainsBefore(k, c)
    requires k - SinceDrain(k, c) <= f < k
    ensures NextDrain(f, c) == k
  {
    BatchCounter(k, c);
    if c >= 1 {
      var p := k / c;
      Quotient(k, c);
      assert k == p * c && p >= 1;
      MulPred(p, c);
      DivMod(f, c, p - 1, f - (p - 1) * c);
    }
  }

  /** A failure among the handles submitted since the last drain surfaces only at the mop-up. */
  lemma NoDrainAfterFailure(f: nat, m: nat, c: nat)
    requires m - SinceDrain(m, c) <= f < m
    ensures NextDrain(f, c) >= m
  {
    if c >= 1 {
      var q, r := (m - 1) / c, (m - 1) % c;
      Quotient(m - 1, c);
      assert SinceDrain(m, c) == r + 1;
      DivMod(f, c, q, f - q * c);
      MulPred(q + 1, c);
    }
  }

  // ----- Counting the results -----

  function Sum(s: seq<nat>): nat
  {
    if s == [] then 0 else Sum(s[..|s| - 1]) + s[|s| - 1]
  }

  lemma {:induction false} CollectedLength<R>(outs: seq<Outcome<R>>, s: seq<nat>)
    requires forall i :: 0 <= i < |s| ==> s[i] <= |outs|
    ensures |Collected(outs, s)| == Sum(s)
  {
    if s != [] {
      CollectedLength(outs, s[..|s| - 1]);
    }
  }

  lemma SumSnoc(s: seq<nat>, x: nat)
    ensures Sum(s + [x]) == Sum(s) + x
  {
    assert (s + [x])[..|s|] == s;
  }

  /** 0 + 1 + ... + k */
  function Tri(k: nat): nat
  {
    if k == 0 then 0 else Tri(k - 1) + k
  }

  lemma {:induction false} TriClosed(k: nat)
    ensures 2 * Tri(k) == k * (k + 1)
  {
    if k > 0 {
      TriClosed(k - 1);
      assert k * (k + 1) == (k - 1) * k + 2 * k;
    }
  }

  lemma Distrib(c: int, a: int, b: int)
    ensures c * (a + b) == c * a + c * b
  {
  }

  /** The drain points below m = q*c + r + 1 (c >= 1) are c, 2c, ..., qc: a drain every c items. */
  lemma {:induction false} DrainPoints(m: nat, c: nat, q: nat, r: nat)
    requires 0 <= r < c && m == q * c + r + 1
    ensures Drains(m, c) == seq(q, i requires 0 <= i < q => (i + 1) * c)
  {
    if r > 0 {
      DrainPoints(m - 1, c, q, r - 1);
      DivMod(m - 1, c, q, r);
      assert Drains(m, c) == Drains(m - 1, c);
    } else if q == 0 {
      assert Drains(1, c) == [];
    } else {
      MulPred(q, c);
      DrainPoints(m - 1, c, q - 1, c - 1);
      DivMod(m - 1, c, q, 0);
      assert Drains(m, c) == Drains(m - 1, c) + [q * c];
    }
  }

  /** The drain points below m = q*c + r + 1 (c >= 1) add up to c * (1 + 2 + ... + q). */
  lemma {:induction false} DrainsSum(m: nat, c: nat, q: nat, r: nat)
    requires 0 <= r < c && m == q * c + r + 1
    ensures Sum(Drains(m, c)) == c * Tri(q)
  {
    if r > 0 {
      DrainsSum(m - 1, c, q, r - 1);
      DivMod(m - 1, c, q, r);
      assert Drains(m, c) == Drains(m - 1, c);
    } else if q == 0 {
      assert Drains(1, c) == [];
    } else {
      MulPred(q, c);
      DrainsSum(m - 1, c, q - 1, c - 1);
      DrainPoint(m, c, q);
    }
  }

  /** The step of DrainsSum at a drain point m - 1 = q*c. */
  lemma DrainPoint(m: nat, c: nat, q: nat)
    requires q >= 1 && c >= 1 && m == q * c + 1
    requires Sum(Drains(m - 1, c)) == c * Tri(q - 1)
    ensures Sum(Drains(m, c)) == c * Tri(q)
  {
    DivMod(m - 1, c, q, 0);
    DrainAt(m, c);
    TriStep(c, q);
  }

  /** A drain point m - 1 adds m - 1 to the sum of the drain points. */
  lemma DrainAt(m: nat, c: nat)
    requires m >= 1 && DrainsBefore(m - 1, c)
    ensures Sum(Drains(m, c)) == Sum(Drains(m - 1, c)) + (m - 1)
  {
    var s := Drains(m - 1, c);
    assert Drains(m, c) == s + [m - 1];
    SumSnoc(s, m - 1);
  }

  lemma TriStep(c: nat, q: nat)
    requires q >= 1
    ensures c * Tri(q) == c * Tri(q - 1) + q * c
  {
    var t := Tri(q - 1);
    assert Tri(q) == t + q;
    Distrib(c, t, q);
  }

  lemma MulPred(q: nat, c: nat)
    requires q >= 1
    ensures q * c == (q - 1) * c + c
  {
    Distrib(c, q - 1, 1);
  }

  lemma ScaledTri(c: nat, k: nat)
    ensures c * k * (k + 1) == 2 * (c * Tri(k))
  {
    TriClosed(k);
    assert c * k * (k + 1) == c * (k * (k + 1));
  }

  /** With every `get` returning, the call yields one result per collected handle: the drain points' sum plus m. */
  lemma EngageLength<R>(outs: seq<Outcome<R>>, c: nat)
    requires AllReady(outs)
    ensures Engage(outs, c).Completed?
    ensures |Engage(outs, c).results| == Sum(Drains(|outs|, c)) + |outs|
  {
    EngageFirstFailure(outs, c);
    var sched := Schedule(|outs|, c);
    CollectedFailsAsOuts(outs, sched);
    CollectedLength(outs, sched);
    SumSnoc(Drains(|outs|, c), |outs|);
  }

  /**
   * Result count: with chunk size c >= 1 and every `get` returning, an
   * input of m >= 1 items yields m + c*k*(k+1)/2 results, k = (m - 1) / c.
   */
  lemma ResultCount<R>(outs: seq<Outcome<R>>, c: nat)
    requires c >= 1 && |outs| >= 1 && AllReady(outs)
    ensures Engage(outs, c).Completed?
    ensures var k := (|outs| - 1) / c;
            |Engage(outs, c).results| == |outs| + c * k * (k + 1) / 2
  {
    EngageLength(outs, c);
    var m := |outs|;
    var k, r := (m - 1) / c, (m - 1) % c;
    Quotient(m - 1, c);
    DrainsSum(m, c, k, r);
    ScaledTri(c, k);
    Halve(c * k * (k + 1), c * Tri(k));
  }

  lemma Quotient(n: nat, c: nat)
    requires c >= 1
    ensures n == (n / c) * c + n % c
  {
  }

  lemma Halve(x: int, t: int)
    requires x == 2 * t
    ensures x / 2 == t
  {
  }

  /** No drain point lies below the chunk size. */
  lemma {:induction false} NoDrainsBelowChunk(m: nat, c: nat)
    requires m <= c
    ensures Drains(m, c) == []
  {
    if m > 0 {
      NoDrainsBelowChunk(m - 1, c);
      assert (m - 1) % c == m - 1 by { DivMod(m - 1, c, 0, m - 1); }
    }
  }

  /**
   * Short inputs: an input of at most c items is collected once, at the
   * mop-up: the call yields one result per item, in input order (or the
   * first item's failure); an empty input yields no results.
   */
  lemma ShortInputs<R>(outs: seq<Outcome<R>>, c: nat)
    requires |outs| <= c
    ensures Engage(outs, c) == Harvest(outs)
    ensures AllReady(outs) ==> Engage(outs, c) == Completed(Values(outs))
  {
    NoDrainsBelowChunk(|outs|, c);
    assert Schedule(|outs|, c) == [] + [|outs|];
    CollectedSnoc(outs, [], |outs|);
    assert outs[..|outs|] == outs;
    assert Collected(outs, Schedule(|outs|, c)) == [] + outs == outs;
  }

  /** x starts with h and, past h, continues with first. */
  ghost predicate StartsWith<X>(x: seq<X>, h: seq<X>, first: X)
  {
    |x| >= |h| && x[..|h|] == h && (|x| > |h| ==> x[|h|] == first)
  }

  /** Appending y, which starts with first when it is not empty, keeps StartsWith. */
  lemma HeadKept<X>(x: seq<X>, y: seq<X>, h: seq<X>, first: X)
    requires StartsWith(x, h, first)
    requires |y| > 0 ==> y[0] == first
    ensures StartsWith(x + y, h, first)
  {
    assert (x + y)[..|h|] == x[..|h|];
  }

  /** Passes whose first collects the first c outcomes start with those c, then nothing or a pass from item 0. */
  lemma {:induction false} PassesHead<R>(outs: seq<Outcome<R>>, s: seq<nat>, c: nat)
    requires |s| >= 1 && s[0] == c
    requires forall i :: 0 <= i < |s| ==> 1 <= s[i] <= |outs|
    ensures StartsWith(Collected(outs, s), outs[..c], outs[0])
  {
    var init := s[..|s| - 1];
    if |s| == 1 {
      assert Collected(outs, init) == [];
      assert StartsWith(outs[..c], outs[..c], outs[0]);
    } else {
      PassesHead(outs, init, c);
      HeadKept(Collected(outs, init), outs[..s[|s| - 1]], outs[..c], outs[0]);
    }
  }

  /** Past the chunk size, the first drain point is c. */
  lemma {:induction false} FirstDrainPoint(m: nat, c: nat)
    requires 1 <= c < m
    ensures |Drains(m, c)| >= 1 && Drains(m, c)[0] == c
  {
    if m == c + 1 {
      NoDrainsBelowChunk(c, c);
      DivMod(c, c, 1, 0);
      assert Drains(c + 1, c) == [] + [c];
    } else {
      FirstDrainPoint(m - 1, c);
    }
  }

  /** Once m > c, the collected outcomes start with the first c, followed by nothing or a pass from item 0. */
  lemma CollectedHead<R>(outs: seq<Outcome<R>>, m: nat, c: nat)
    requires 1 <= c < m <= |outs|
    ensures StartsWith(Collected(outs, Drains(m, c)), outs[..c], outs[0])
  {
    FirstDrainPoint(m, c);
    PassesHead(outs, Drains(m, c), c);
  }

  /**
   * Re-collection: once the input is longer than c >= 1 items and every
   * `get` returns, the call yields more results than items, the first c
   * results are items 0..c-1, and result c is item 0's again.
   */
  lemma Recollects<R>(outs: seq<Outcome<R>>, c: nat)
    requires 1 <= c < |outs| && AllReady(outs)
    ensures Engage(outs, c).Completed?
    ensures var rs := Engage(outs, c).results;
            |rs| > |outs| && rs[..c] == Values(outs[..c]) && rs[c] == outs[0].value
  {
    var m := |outs|;
    EngageFirstFailure(outs, c);
    CollectedFailsAsOuts(outs, Schedule(m, c));
    CollectedHead(outs, m, c);
    var x := Collected(outs, Drains(m, c));
    CollectedSnoc(outs, Drains(m, c), m);
    assert outs[..m] == outs;
    var y := x + outs;
    assert y[..c] == outs[..c];
    assert y[c] == outs[0];
    CollectedLength(outs, Drains(m, c));
  }
}
