# warpcore dispatcher, modelled in Dafny

This project models the `WarpCore` dispatcher of warpcore (`warpcore/engineering.py`).
It models the constructor, which derives the concurrency cap, the chunk size and the
bounded semaphore. It models the permit gate that `_thread_decorator` wraps around the
caller's worker. It models the two chunked submit/collect loops, `list_engage` and
`dict_engage`.

The thread or process pool is abstracted as an oracle:

- `apply_async` for the i-th item returns the handle `Handle(i, item)`.
- `get(timeout)` on that handle yields what the worker returns for the item, the exception
  the worker raised, or a timeout. `expired(i)` says whether the wait on handle i runs out.
  This outcome is fixed per handle.

With the pool abstracted, each engage call is a sequential loop over `iterations`,
`threads` and `results`. `Engineering.WarpCore.ListEngage` and `DictEngage` are those
loops, and each is proved to return `Dispatch.Engage` of the per-item outcome list.
`Dispatch.Engage` is a declarative description of what the call does:

- `Dispatch.Schedule` gives each collection pass. There is one pass per drain point, and
  each pass collects every handle submitted so far. The mop-up then collects all of them.
- `Dispatch.Collected` gives what those passes collect, in order.
- `Dispatch.Harvest` gives the result list, or the first failure when a `get` raises.

Because `threads` is never cleared at a drain, an input longer than the chunk size
`cap * 32` gets results for its earlier items again. `Dispatch.ResultCount` states the
number of results, and `Dispatch.Recollects` states which ones repeat. The test module's
list and dict tests hold on a host with 4 or more CPUs. They fail on a host with 3 or
fewer CPUs (module `Scenarios`).

The docstrings of `list_engage` and `dict_engage` (warpcore/engineering.py:183-185
and 224-226) describe each call as a plain loop over the input. The tests
(warpcore/test_engineering.py:22-29 and 43-49) expect one result per item, in input
order. The code does that only for inputs of at most `cap * 32` items. The first `get`
that raises propagates out of the call, and then no result list comes back.

The engage loops submit the caller's worker itself, not the wrapped one, to the pool.
This changes no outcome: `FunctionWrapper` is proved to return or raise exactly what the
worker does and to give back the permit it took.

## Model

| member | source | states |
|---|---|---|
| `Engineering.WarpCore.constructor` | warpcore/engineering.py:32-38 | the cap is `max_parallel` when given, else the CPU count; the chunk size is 32 times the cap; the semaphore's capacity and free permits equal the cap |
| `Engineering.BoundedSemaphore.Acquire` | warpcore/engineering.py:61 | taking a permit lowers the free permits by one and keeps them within capacity |
| `Engineering.BoundedSemaphore.Release` | warpcore/engineering.py:65 | giving a permit back raises the free permits by one; when all are already free it is the ValueError case and nothing changes |
| `Engineering.WarpCore.FunctionWrapper` | warpcore/engineering.py:58-65 | the wrapped call returns or raises exactly what the worker does, and afterwards the free permits equal those before, on both outcomes |
| `Engineering.Collect` | warpcore/engineering.py:208-209 | collecting a handle list appends every handle's value in handle order, or propagates the failure of the first handle whose `get` raises |
| `Engineering.WarpCore.ListEngage` | warpcore/engineering.py:178-217 | the call yields `Engage` of the per-item outcomes with the instance's chunk size; the handles submitted are those of the first items in iteration order, item i as handle i; without a failure all items are submitted, and with one the call stops at the first drain point after the first failing item, or at the end of the input |
| `Engineering.WarpCore.DictEngage` | warpcore/engineering.py:219-258 | the same as `ListEngage` over the `(key, value)` pairs in `items()` order, with handle i computing `worker(key_i, value_i)` |
| `Engineering.WarpCore.ListEngageCorrected` | warpcore/engineering.py:202-217 | with `threads` cleared after each drain, the call yields one result per item in input order, or the first failing item's failure |
| `Engineering.WarpCore.DictEngageCorrected` | warpcore/engineering.py:243-258 | with `threads` cleared after each drain, the call yields one result per pair in `items()` order, or the first failing pair's failure |
| `Engineering.DrainPassed` | warpcore/engineering.py:207-213 | a drain in which every `get` returns appends the values of all items submitted so far and restarts the count at the next item |
| `Engineering.DrainFailed` | warpcore/engineering.py:207-209 | when a drain before item k raises, the failure is that of the first failing item overall, and k is the first drain point after that item |
| `Engineering.MopUp` | warpcore/engineering.py:215-216 | the mop-up appends the values of all handles to those of the drains, or raises the first failing item's failure with every item submitted |
| `Dispatch.FirstFailed` | warpcore/engineering.py:208-209 | the position of the first `get` that raises: it raises, and every earlier one returned |
| `Dispatch.EngageFirstFailure` | warpcore/engineering.py:207-216 | the call raises exactly when some item's `get` raises, and it then raises the first such item's failure |
| `Dispatch.BatchCounter` | warpcore/engineering.py:207-213 | after k >= 1 submissions `iterations` lies in 1..chunk size (1 for chunk size 0), and the loop drains before item k exactly when `iterations` has reached the chunk size |
| `Dispatch.SinceDrainStep` | warpcore/engineering.py:207-213 | `iterations` is reset only at a drain, and it grows by one with every submission |
| `Dispatch.CollectedStep` | warpcore/engineering.py:207-210 | a drain before item k appends the outcomes of all k handles submitted so far, and there is no other collection inside the loop |
| `Dispatch.CollectedFailsAsOuts` | warpcore/engineering.py:202-216 | every pass collects a prefix of the per-item outcomes, so the collected outcomes either all returned or fail as the per-item list does |
| `Dispatch.NextDrain` | warpcore/engineering.py:207-209 | the drain point after item f is a multiple of the chunk size that is above f and at most one chunk after it |
| `Dispatch.DrainAfterFailure` | warpcore/engineering.py:207-209 | a failure among the handles submitted since the previous drain is collected at the next drain point |
| `Dispatch.NoDrainAfterFailure` | warpcore/engineering.py:213-216 | a failure after the last drain point surfaces only at the mop-up |
| `Dispatch.FirstDrainPoint` | warpcore/engineering.py:207 | past the chunk size c >= 1, the first drain happens before item c |
| `Dispatch.NoDrainsBelowChunk` | warpcore/engineering.py:207 | no drain happens before the chunk size is reached |
| `Dispatch.DrainPoints` | warpcore/engineering.py:207-213 | with chunk size c >= 1, the drain points below m = q*c + r + 1 are exactly c, 2c, ..., qc: one drain every c items |
| `Dispatch.DrainsSum` | warpcore/engineering.py:207-213 | the drain points below m = q*c + r + 1 add up to c*(1 + ... + q) |
| `Dispatch.ShortInputs` | warpcore/engineering.py:205-217 | an input of at most chunk-size items is collected once: one result per item in order (none for an empty input), or the first failure |
| `Dispatch.ResultCount` | warpcore/engineering.py:202-216 | with chunk size c >= 1 and no failure, m >= 1 items yield m + c*k*(k+1)/2 results, k = (m-1)/c |
| `Dispatch.Recollects` | warpcore/engineering.py:202-216 | once the input is longer than the chunk size c, there are more results than items; the first c results are items 0..c-1, and result c is item 0's again |
| `Scenarios.ListTestWithFourCpus` | warpcore/test_engineering.py:16-29 | with 4 or more CPUs, `list_engage(range(100), index + 10)` yields `[10, ..., 109]` |
| `Scenarios.DictTestWithFourCpus` | warpcore/test_engineering.py:31-49 | with 4 or more CPUs, `dict_engage({i: 2i}, key * value + 10)` yields `i * 2i + 10` for each i in order |
| `Scenarios.ListTestWithThreeCpus` | warpcore/test_engineering.py:16-29 | with 3 CPUs, the list test's call yields 196 results, and result 96 is 10 where the test expects 106 |
| `Scenarios.DictTestWithThreeCpus` | warpcore/test_engineering.py:31-49 | with 3 CPUs, the dict test's call yields 196 results, and result 96 is 10 where the test expects 96 * 192 + 10 |
| `Scenarios.ListTest` | warpcore/test_engineering.py:16-29 | `WarpCore()` then `list_engage` on the test's jobs: `[10, ..., 109]` with 4 or more CPUs; with 3 CPUs 196 results, result 96 being 10 |
| `Scenarios.DictTest` | warpcore/test_engineering.py:31-49 | `WarpCore()` then `dict_engage` on the test's dictionary: `i * 2i + 10` per key in order with 4 or more CPUs; with 3 CPUs 196 results, result 96 being 10 |
| `Scenarios.OneFailureAbortsTheCall` | warpcore/engineering.py:209 | a worker that raises on one of 100 jobs makes the whole call raise that exception, whatever the chunk size |

## Left out

- Real execution is not modelled: `ThreadPool` and `multiprocessing.Pool`, parallelism, blocking inside `get`, and timeout timing. Each pool is replaced by the per-item oracle (`Dispatch.Get`, with `expired` for timeouts). The `compute` flag only picks which pool to use, so both pools are the same oracle here.
- The pools are never closed or joined, which leaks resources. A sequential model has no place to show that.
- The model assumes a handle's `get` yields the same thing each time it is collected again. For the handles that are collected again this holds: they returned before, because the first failure ends the call.
- `setattr(sys.modules[...], ...)` at warpcore/engineering.py:67 rewrites the caller's module namespace by reflection. `@wraps` copies metadata. Neither is modelled.
- `list_profile` and `dict_profile` (warpcore/engineering.py:70-176) are not modelled. They time runs with the wall clock, use floating-point percentages, print, and call `exit(3)`. Their reassignment of `_threadLimiter` is not modelled either.
- The `_Lock` / `new_lock` factory (warpcore/engineering.py:40-56) is a thin wrapper over `threading.Lock` and is not modelled.
- `multiprocessing.cpu_count()` is a foreign call, so the constructor takes the CPU count as a parameter.
- The input iterable, which may be a one-shot generator, is modelled as a finite sequence. The dictionary is modelled as its `items()` pairs in iteration order, with distinct keys.
- Engineering.WarpCore.constructor: `max_parallel` is a natural number here. A negative value, for which `BoundedSemaphore` raises ValueError, cannot be passed, and neither can a non-integer one.
- Engineering.BoundedSemaphore.Acquire: it requires a free permit. Blocking until another invocation releases one is not modelled.
- Engineering.WarpCore.ListEngage: with `max_parallel=0` the chunk size is 0 and the loop drains before every item, which is modelled. But no worker can ever take a permit, so every `get` really blocks forever or times out. The model does not force the oracle to say so.
- docs/example1.py, docs/example2.py, example0.py and setup.py are demos and packaging, so they are not modelled.

## Findings

| source | as written | input that shows it | evidently intended | confidence | as-written member | corrected member |
|---|---|---|---|---|---|---|
| warpcore/engineering.py:202-210 | `threads` is never cleared at a drain, so each drain and the mop-up collect every earlier handle again | `list_engage(list(range(100)), lambda i: i + 10)` on a 3-CPU host (chunk 96): 196 results, and result 96 is 10, not 106 | one result per item, in order (docstring at lines 183-185; test at warpcore/test_engineering.py:22-29), by clearing `threads` after each drain | high; not executed | `Scenarios.ListTest` | `Engineering.WarpCore.ListEngageCorrected` |
| warpcore/engineering.py:243-251 | the same never-cleared `threads` list in `dict_engage` | `dict_engage({i: 2 * i for i in range(100)}, lambda k, v: k * v + 10)` on a 3-CPU host: 196 results, and result 96 is 10, not 18442 | one result per pair, in order (docstring at lines 224-226; test at warpcore/test_engineering.py:43-49) | high; not executed | `Scenarios.DictTest` | `Engineering.WarpCore.DictEngageCorrected` |
