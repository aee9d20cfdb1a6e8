# Kapua tracker: admission control and lifecycle

This project models the admission-control and lifecycle logic of the Kapua
peer tracker's `Tracker` class. The model has three parts:

- **The per-IP fixed-window rate limiter.** The rate-limit map sends each
  source address to a `RateLimitInfo` with a request count and a window
  start. `check_rate_limit` restarts a source's window once it has elapsed.
  It then counts the request and admits it while the count is at most 100.
  `cleanup_rate_limits` erases every entry whose window has elapsed.
- **The response choice in `handle_http_request`.** A request that was
  denied gets 429 with `retry-after: 60`. A request that was admitted gets
  200. Both responses have an empty `text/plain` body, and both carry the
  `kapua-tracker v0.0.1` server header.
- **The running flag.** `start` sets the flag. `stop` clears it and tears
  the service down, but only when the flag is set.

Files:

- `rate_limit.dfy` (module `RateLimit`) defines the table as a value. It
  states what one check and one sweep do. It also proves properties of
  request sequences, for example that within one window the first 100
  requests are admitted and every later one is denied.
- `http_response.dfy` (module `HttpResponse`) is the response choice, as a
  pure function of the verdict and the request.
- `tracker.dfy` (module `Tracker`) is the `Tracker` class. Its rate-limit
  map and running flag are fields that its methods update in place.
  `CheckRateLimit`, `CleanupRateLimits` and `HandleHttpRequest` are proved
  equal to the functions of `RateLimit` and `HttpResponse`. The
  constructor, `Start` and `Stop` state their effect directly on the
  fields. The sweep is a loop that erases entries one at a time.

Time is a natural number of ticks of the monotonic clock. One tick is a
nanosecond, so the 60-second window is `60 * TICKS_PER_SECOND` ticks. Every
operation takes `now` as a parameter instead of reading the clock. The
clock's epoch is 0.

The model does what the code does at these points:

- **The window boundary.** A window restarts only when strictly more than
  60 seconds have passed (strict `>`, `src/Tracker.cpp:135`). A request
  exactly 60 seconds after the window start stays in the old window.
- **A new entry's window start.** `operator[]` value-initialises a missing
  entry to count 0 and window start at the clock's epoch
  (`src/Tracker.cpp:133`). The window start is not the time of the entry's
  first request. The first request resets it to `now` only if the clock
  reads more than 60 seconds (`src/Tracker.cpp:135-138`).
- **The retry-after value.** It is the literal `"60"`
  (`src/Tracker.cpp:95`). It is not computed from the time left in the
  window.

## Model

| member | source | states |
|---|---|---|
| `RateLimit.Touch` | src/Tracker.cpp:135-140 | one request's effect on its entry: when the window has elapsed (strict `>`), count 1 and window start `now`; otherwise count plus one with the window start unchanged; either way the window has not elapsed afterwards |
| `RateLimit.Check` | src/Tracker.cpp:131-145 | one admission check: the address's key is inserted if absent and no other key is added; the table grows by at most one entry; every other entry is unchanged; the entry is reset or incremented as in `Touch`; an address with no entry yet starts from the value-initialised entry, so it ends with count 1 and window start `now` when the clock reads more than 60 s, and count 1 and window start 0 (the epoch) otherwise; the request is admitted iff the new count is at most 100 (denied requests are still counted) |
| `RateLimit.Sweep` | src/Tracker.cpp:147-156 | the sweep removes exactly the entries whose window has elapsed at `now`; it keeps every other entry unchanged; every entry it keeps has a live window |
| `RateLimit.SweepIdempotent` | src/Tracker.cpp:147-156 | sweeping twice at the same instant gives the same table as sweeping once |
| `RateLimit.SweepKeepsJustChecked` | src/Tracker.cpp:131-156 | an entry checked at `now` is never removed by a sweep at the same `now` |
| `RateLimit.ReplayWithinWindow` | src/Tracker.cpp:135-144 | for requests that all arrive within the entry's current window, the k-th request's verdict is whether the old count plus k + 1 is at most 100; the final entry has the count grown by the number of requests and the same window start |
| `RateLimit.ReplayNewWindow` | src/Tracker.cpp:135-144 | a request that finds its window elapsed starts a new window; of the requests within 60 s of it, the first 100 are admitted and every later one is denied; the entry ends with count equal to the number of requests and window start equal to the first request's time |
| `RateLimit.ReplayLeavesOthers` | src/Tracker.cpp:131-145 | any run of checks for one address leaves every other address as it was: present before iff present after, and with the same entry |
| `HttpResponse.Respond` | src/Tracker.cpp:88-122 | a denied request gets status 429 with `retry-after: "60"`; an admitted one gets 200 with no retry-after; both responses carry server `kapua-tracker v0.0.1`, content-type `text/plain`, an empty body with content-length 0, and the request's version and keep-alive flag |
| `HttpResponse.VerdictChangesOnlyStatusAndRetryAfter` | src/Tracker.cpp:88-122 | the admitted and the denied response to one request differ only in status and `retry-after` |
| `Tracker.Tracker.constructor` | src/Tracker.hpp:57-68 | a new tracker has an empty rate-limit map and is not running |
| `Tracker.Tracker.Start` | src/Tracker.cpp:30-40 | `start` always sets the running flag and launches a worker; the rate-limit map is unchanged |
| `Tracker.Tracker.Stop` | src/Tracker.cpp:42-51 | `stop` when not running changes nothing; when running it clears the flag and tears down once; so a second `stop` is a no-op |
| `Tracker.Tracker.CheckRateLimit` | src/Tracker.cpp:131-145 | the in-place update of the map entry, and the verdict, are exactly those of `RateLimit.Check` on the old map; the running flag is unchanged |
| `Tracker.Tracker.CleanupRateLimits` | src/Tracker.cpp:147-156 | the erase loop leaves exactly `RateLimit.Sweep` of the old map |
| `Tracker.Tracker.HandleHttpRequest` | src/Tracker.cpp:81-122 | a request from an address first updates the map as `RateLimit.Check` does; the response is then `HttpResponse.Respond` of that check's verdict |

The threshold (`RATE_LIMIT_THRESHOLD` = 100, `src/Tracker.hpp:58`) and the
window (`RATE_LIMIT_INTERVAL` = 60 s in ticks, `src/Tracker.hpp:59`) are constants of
module `RateLimit`. The server string (`KAPUA_SERVER_STRING`,
`src/Tracker.hpp:24`) is a constant of module `HttpResponse`. The table is
a Dafny `map`, so each source address has at most one entry
(`src/Tracker.hpp:57`).

## Left out

- The asynchronous accept loop, request reading and response writing
  (`start_accept`, `handle_request`, the `async_write` callbacks). They are
  network I/O and callback chaining. A write failure only logs.
- Socket setup in the constructor, and reading the remote endpoint and
  converting it to text. These are library calls. The source address
  reaches `HandleHttpRequest` as a string parameter.
- Threads, `io_context.run`/`stop`, `thread.join`, the mutex and the
  condition variable. The model is sequential. The teardown in `stop` and
  the worker launch in `start` are recorded only by the ghost counters
  `teardowns` and `launches`. The model therefore does not capture two
  things. First, a stopped I/O context is not restarted by a later `start`.
  Second, `start` while already running reassigns the worker thread.
- `Tracker.Tracker.constructor`: `_running` is left uninitialised in the
  source. The model starts it as false.
- Locking of the rate-limit map. The source does not lock it; the mutex
  guards only the running flag. Concurrent checks and sweeps are not
  modelled.
- `write_async_response` is declared but never defined, so there is
  nothing to model.
- Logging. It is a side-effecting sink.
- The steady clock's tick length. It depends on the standard library. The
  model takes one tick to be a nanosecond, as common implementations do.
  With a coarser clock, the exact-60-second tie would be more likely.
- `RateLimit.Check`: the count is an unbounded natural number. The C++
  `int` would overflow after about 2^31 denied requests in one window.
- The order in which `cleanup_rate_limits` visits entries is not modelled.
  The model's loop erases entries in an arbitrary order, and the resulting
  map is the same for every order.
- src/Database.cpp, src/Database.hpp and src/main.cpp are not part of this
  model. They are a MySQL client wrapper and process bootstrap.
