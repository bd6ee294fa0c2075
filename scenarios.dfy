/**
 * The scenarios of warpcore/test_engineering.py.  The lemmas state them over
 * the engage semantics of module Dispatch: a `WarpCore()` on a host with
 * `cpus` CPUs has chunk size `cpus * 32`, and `ListEngage` / `DictEngage`
 * yield `Engage` of the per-item outcomes.  The methods run the tests'
 * calls through the dispatcher itself.
 */
module Scenarios {
  import opened Dispatch
  import opened Engineering

  /** The list test's jobs: 0, 1, ..., 99. */
  function Jobs(): seq<int>
  {
    seq(100, i => i)
  }

  /** The list test's worker: `index + 10`. */
  function AddTen(x: int): Call<int>
  {
    Returns(x + 10)
  }

  /** The dict test's jobs: key i maps to 2 * i, for i in 0..99, in insertion order. */
  function DictJobs(): seq<(int, int)>
  {
    seq(100, i => (i, 2 * i))
  }

  /** The dict test's worker: `key * value + 10`. */
  function KeyTimesValue(key: int, value: int): Call<int>
  {
    Returns(key * value + 10)
  }

  /** The tests pass no timeout: no wait ever expires. */
  function NoTimeout(i: nat): bool
  {
    false
  }

  /** A worker that raises on job 5, as a division by zero would. */
  function FailsOnFive(x: int): Call<int>
  {
    if x == 5 then Raises("ZeroDivisionError") else Returns(x + 10)
  }

  /** On a host with 4 or more CPUs (chunk of at least 128) the list test holds: result i is job i + 10. */
  lemma ListTestWithFourCpus(cpus: nat)
    requires cpus >= 4
    ensures Engage(Outcomes(Jobs(), AddTen, NoTimeout), cpus * 32) == Completed(seq(100, i => i + 10))
  {
    var outs := Outcomes(Jobs(), AddTen, NoTimeout);
    forall i | 0 <= i < 100
      ensures outs[i].Ready? && outs[i].value == i + 10
    {
      OutcomesAt(Jobs(), AddTen, NoTimeout, i);
    }
    ShortInputs(outs, cpus * 32);
  }

  /** On a host with 4 or more CPUs the dict test holds: result i is key i times value i, plus 10. */
  lemma DictTestWithFourCpus(cpus: nat)
    requires cpus >= 4
    ensures Engage(Outcomes(DictJobs(), Spread(KeyTimesValue), NoTimeout), cpus * 32)
              == Completed(seq(100, i => i * (2 * i) + 10))
  {
    var outs := Outcomes(DictJobs(), Spread(KeyTimesValue), NoTimeout);
    forall i | 0 <= i < 100
      ensures outs[i].Ready? && outs[i].value == i * (2 * i) + 10
    {
      OutcomesAt(DictJobs(), Spread(KeyTimesValue), NoTimeout, i);
    }
    ShortInputs(outs, cpus * 32);
  }

  /**
   * On a host with 3 CPUs (chunk 96) the list test fails: the call yields
   * 196 results, and result 96 is job 0's again (10) where the test expects
   * 106.
   */
  lemma ListTestWithThreeCpus()
    ensures var e := Engage(Outcomes(Jobs(), AddTen, NoTimeout), 3 * 32);
            e.Completed? && |e.results| == 196 && e.results[96] == 10
  {
    var outs := Outcomes(Jobs(), AddTen, NoTimeout);
    forall i | 0 <= i < 100
      ensures outs[i].Ready? && outs[i].value == i + 10
    {
      OutcomesAt(Jobs(), AddTen, NoTimeout, i);
    }
    assert |outs| == 100;
    Recollects(outs, 96);
    ResultCount(outs, 96);
    DivMod(99, 96, 1, 3);
    var rs := Engage(outs, 96).results;
    assert |rs| == 100 + 96 * 1 * (1 + 1) / 2;
  }

  /** The dict test fails the same way with 3 CPUs: result 96 is pair 0's again (10), not 96 * 192 + 10. */
  lemma DictTestWithThreeCpus()
    ensures var e := Engage(Outcomes(DictJobs(), Spread(KeyTimesValue), NoTimeout), 3 * 32);
            e.Completed? && |e.results| == 196 && e.results[96] == 10
  {
    var outs := Outcomes(DictJobs(), Spread(KeyTimesValue), NoTimeout);
    forall i | 0 <= i < 100
      ensures outs[i].Ready? && outs[i].value == i * (2 * i) + 10
    {
      OutcomesAt(DictJobs(), Spread(KeyTimesValue), NoTimeout, i);
    }
    assert |outs| == 100;
    Recollects(outs, 96);
    ResultCount(outs, 96);
    DivMod(99, 96, 1, 3);
    var rs := Engage(outs, 96).results;
    assert |rs| == 100 + 96 * 1 * (1 + 1) / 2;
  }

  /**
   * One failing job is not isolated: whatever the chunk size, the call
   * raises job 5's exception and returns no results.
   */
  lemma OneFailureAbortsTheCall(c: nat)
    ensures Engage(Outcomes(Jobs(), FailsOnFive, NoTimeout), c) == Propagated(WorkerRaised("ZeroDivisionError"))
  {
    var outs := Outcomes(Jobs(), FailsOnFive, NoTimeout);
    forall i | 0 <= i < 100
      ensures outs[i].Ready? <==> i != 5
    {
      OutcomesAt(Jobs(), FailsOnFive, NoTimeout, i);
    }
    assert outs[5] == Failed(WorkerRaised("ZeroDivisionError"));
    FirstFailedAt(outs, 5);
    EngageFirstFailure(outs, c);
  }

  /**
   * `test_list_engage`: `WarpCore()` on a host with `cpus` CPUs, then
   * `list_engage(jobs, worker)`.  It passes with 4 or more CPUs and fails
   * with 3.
   */
  method ListTest(cpus: nat) returns (r: Engaged<int>)
    ensures cpus >= 4 ==> r == Completed(seq(100, i => i + 10))
    ensures cpus == 3 ==> r.Completed? && |r.results| == 196 && r.results[96] == 10
  {
    var core := new WarpCore(None, cpus);
    ghost var handles;
    r, handles := core.ListEngage(Jobs(), AddTen, NoTimeout);
    if cpus >= 4 {
      ListTestWithFourCpus(cpus);
    } else if cpus == 3 {
      ListTestWithThreeCpus();
    }
  }

  /**
   * `test_dict_engage`: `WarpCore()` on a host with `cpus` CPUs, then
   * `dict_engage(jobs, dictionary_worker)`.  It passes with 4 or more CPUs
   * and fails with 3.
   */
  method DictTest(cpus: nat) returns (r: Engaged<int>)
    ensures cpus >= 4 ==> r == Completed(seq(100, i => i * (2 * i) + 10))
    ensures cpus == 3 ==> r.Completed? && |r.results| == 196 && r.results[96] == 10
  {
    var core := new WarpCore(None, cpus);
    assert DistinctKeys(DictJobs()) by {
      forall i, j | 0 <= i < j < 100 ensures Key(DictJobs()[i]) != Key(DictJobs()[j]) {
      }
    }
    ghost var handles;
    r, handles := core.DictEngage(DictJobs(), KeyTimesValue, NoTimeout);
    if cpus >= 4 {
      DictTestWithFourCpus(cpus);
    } else if cpus == 3 {
      DictTestWithThreeCpus();
    }
  }
}
