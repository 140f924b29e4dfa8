# Fixed-window rate limiter for PlivoAPI handlers

A Dafny model of `rate_limiter/rate_limiter.py`: a decorator that guards an API handler
with a per-key request quota kept in Redis. Each request runs one Lua script on the Redis
server that increments the key's counter and, on the increment that yields 1, sets the
key's TTL to the window size (the "rate limiter 2" pattern of the Redis INCR command). The
request is refused with a 429 response when the returned count is strictly greater than
`max_request`; any exception raised by `has_limit_exceeded` lets the request through
(fail open).

Three modules, following the source's structure:

- `redis_store.dfy`, module `RedisModel`: the counters the limiter keeps in Redis as a map
  from key to `Entry(count, expiry)` with signed 64-bit counts and an abstract integer
  clock; `Increment` is the script's effect as one atomic step, `Expire` the disappearance
  of keys whose TTL ran out. Class `RedisStore` is the server as the limiter sees it, with
  the counters, the clock and whether the script is in the server's script cache; its
  methods `EvalSha`, `Eval`, `Advance` and `FlushScripts` change that state. Its invariant
  `WellFormed` says that every stored counter is positive and carries a TTL still in the
  future, so no counter lives forever.
- `fixed_window.dfy`, module `FixedWindow`: the limiter's configuration, the strict
  comparison, `has_limit_exceeded` as a method on the store with the NOSCRIPT fallback, and
  `Calls`, the replies of a run of calls on one key at given ticks. The window lemmas
  are stated about `Calls`: counts 1, 2, 3, ... within a window, calls 1..M admitted,
  exactly min(N, M) of N calls admitted, and a fresh window after expiry.
- `decorator.dfy`, module `Decorator`: `RESTResponse` content defaulting, the key
  `str(auth_session.api_name)`, the wrapper as a method, and its specification `Guard`.

Modelling choices:

- Time is an abstract tick. A key whose expiry is `e` is live while the clock is below
  `e`. A window opened at tick `t` therefore covers ticks `t .. t + window_size - 1`.
- Redis atomicity is taken as given: each script call is one step of `Increment`. Concurrent
  callers on one key are then a sequence of such steps in whatever order the server applied
  them, which is what `Calls` describes.
- The backend's behaviour is a parameter, `Fault`. `Healthy` means the call succeeds.
  `Unreachable` means it fails before reaching the server, so nothing changes.
  `ReplyLost` means the script ran but the reply never arrived, so the quota is consumed
  and the caller sees an exception.
- `has_limit_exceeded` returns `True` or falls through to `None`; it never returns
  `False`. `CheckResult` keeps these apart (`ReturnedTrue`, `ReturnedNone`, `Raised`), and
  `ApplyRateLimit` maps `None` and an exception to "not limited".
- Two Redis behaviours the script reaches are modelled. INCR fails on a counter at
  2^63 - 1 and leaves it unchanged (the reply's passage through a Lua number is not
  modelled; see "Left out"). EXPIRE with a non-positive window deletes the key
  instead of expiring it, and the script still answers 1.
- The constructor `RateLimiter.__init__` (rate_limiter/rate_limiter.py:28-31) stores
  `window_size` and `max_request` unchecked. It is the datatype `Limiter`, which places no
  constraint on either field; lemmas that need a positive window say so in their
  `requires`.

What the code does, and therefore the model:

- The key is `str(auth_session.api_name)` alone. There is no namespace prefix and no
  client-address part.
- The configuration is not validated: a non-positive window or maximum is accepted.
- On a missing script (NOSCRIPT), EVAL is sent once. Every other error, including one
  from that EVAL, propagates to the wrapper, which fails open.

## Model

| member | source | states |
|---|---|---|
| RedisModel.Increment | rate_limiter/rate_limiter.py:65-72 | the reply is the post-increment count (1 for an absent key) and the store keeps it; INCR overflow is an error that changes nothing; a TTL of `window` is set only when the new value is 1 (a non-positive window deletes the key), later increments keep the old expiry; every other key is unchanged |
| RedisModel.Expire | rate_limiter/rate_limiter.py:68-70 | a key remains exactly when its TTL has not run out, with its entry unchanged |
| RedisModel.IncrementKeepsWellFormed | rate_limiter/rate_limiter.py:65-72 | the script keeps every counter positive with a TTL in the future |
| RedisModel.ExpireKeepsWellFormed | rate_limiter/rate_limiter.py:68-70 | expiry at a later tick keeps that invariant |
| RedisModel.IncrementLiveKey | rate_limiter/rate_limiter.py:67-70 | on a live key the reply is the stored count plus one and the expiry does not move |
| RedisModel.RedisStore.Advance | rate_limiter/rate_limiter.py:68-70 | the clock moves on and exactly the expired keys disappear; invariant kept |
| RedisModel.RedisStore.FlushScripts | rate_limiter/rate_limiter.py:80 | the script cache is emptied, counters untouched |
| RedisModel.RedisStore.EvalSha | rate_limiter/rate_limiter.py:78-80 | NOSCRIPT and no change when the script is not cached, otherwise the script's reply and effect |
| RedisModel.RedisStore.Eval | rate_limiter/rate_limiter.py:81-82 | the script's reply and effect, and the script is cached afterwards |
| FixedWindow.ExceededBoundary | rate_limiter/rate_limiter.py:83-84 | count == max_request is not exceeded, max_request + 1 is |
| FixedWindow.Check | rate_limiter/rate_limiter.py:75-84 | True exactly when the backend is healthy and the post-increment count exceeds max_request; an exception exactly on a backend fault or INCR overflow |
| FixedWindow.HasLimitExceeded | rate_limiter/rate_limiter.py:75-84 | result and store effect are those of one script call, whether or not the script was cached (EVALSHA then EVAL fallback); an unreachable backend changes nothing |
| FixedWindow.RetryAfterLostReply | rate_limiter/rate_limiter.py:77-84 | a call whose reply is lost raises, yet its script step is applied, so the retry is judged on the stored count plus two |
| FixedWindow.CountsWithinWindow | rate_limiter/rate_limiter.py:67-71 | while a live counter's window is open, calls return the next numbers in turn and the expiry stays put |
| FixedWindow.FirstWindow | rate_limiter/rate_limiter.py:65-72 | calls on an absent key within `window` ticks of the first return 1, 2, 3, ... and the key expires at first tick + window |
| FixedWindow.WindowVerdicts | rate_limiter/rate_limiter.py:65-84 | within one window calls 1..M return None and every later call returns True |
| FixedWindow.NextWindow | rate_limiter/rate_limiter.py:65-72 | after the first window has run out the next calls count from 1 again: absent -> counting -> absent -> counting |
| FixedWindow.AdmittedConsecutive | rate_limiter/rate_limiter.py:83-84 | of consecutive counts c+1, c+2, ... exactly those up to max_request are admitted |
| FixedWindow.ExactlyMaxAdmitted | rate_limiter/rate_limiter.py:65-84 | of N calls on one key within one window, in any order, exactly min(N, M) are admitted (none if M <= 0) |
| Decorator.MakeResponse | rate_limiter/rate_limiter.py:11-14 | code and method kept; content is the given dict when truthy and the empty dict exactly when it is None or empty |
| Decorator.SharedBucketIff | rate_limiter/rate_limiter.py:36-39 | a script call for one request moves the counter another request is judged on exactly when their keys `str(api_name)` are equal |
| Decorator.Guard | rate_limiter/rate_limiter.py:34-48 | refused exactly when the backend is healthy and this request is beyond the max_request-th in its bucket; a refusal is the response with code 429, content {'error': 'too many requests'} and method "GET"; any backend fault calls the handler (fail open) |
| Decorator.BucketsIndependent | rate_limiter/rate_limiter.py:37-39 | a call on one key does not change the verdict for any other key |
| Decorator.Wrapper | rate_limiter/rate_limiter.py:34-48 | returns what `Guard` says for the store before the call, the store changes by at most one script step on the request's key, and the script is cached afterwards unless the backend was unreachable |
| Decorator.FixedWindowScenario | rate_limiter/rate_limiter.py:34-84 | with 3 requests per 60 ticks: three pass, the fourth gets 429, one during an outage passes, and after the window the next passes |

## Left out

- Redis connections and the connection pool (rate_limiter/rate_limiter.py:76): reaching the server is the `Fault` parameter.
- The SHA-1 digest of the script (rate_limiter/rate_limiter.py:73): whether the server holds the script is the boolean `scriptCached`.
- Real concurrency and wall-clock time: every script call is one atomic step and time is an abstract tick.
- `ABCMeta` and `abstractmethod` (rate_limiter/rate_limiter.py:26, 53-55), the copying of `__name__` and `__doc__` (rate_limiter/rate_limiter.py:49-50) and `RESTResponse.__str__` (rate_limiter/rate_limiter.py:16-17): these are Python mechanics and formatting with no effect on the limiter's decisions.
- The wrapped handler's own result and the `rest_handler`, `*args`, `**kwargs` it is passed: calling the handler is the outcome `CalledHandler`.
- A `window_size` that is not an integer, or one large enough that Redis rejects the expiry time. In both cases EXPIRE fails after INCR has run, and the key is left without a TTL. The window is modelled as an integer without that bound.
- Other clients writing the same key, such as a non-integer value or a TTL set from outside. The model's keys hold only what the script writes.
- Truthiness of `content` values other than None and dicts, and `max_request` values that are not integers.
- setup.py: packaging metadata, no logic.
- KeyOf: `api_name` is taken to be a `str`, so `str()` is the identity. For other types, distinct values with the same string form (`1` and `"1"`) would share a bucket.
- Errors outside `has_limit_exceeded` are not modelled. A missing `api_name` attribute or a failing `__str__` at rate_limiter/rate_limiter.py:37 is evaluated before the `try` and reaches the caller. So does an exception raised by the wrapped handler at rate_limiter/rate_limiter.py:48. `KeyOf` is total and the handler is the outcome `CalledHandler`.
- Increment: the script's reply passes through a Lua number (a double) before it is returned. Counts above 2^53 therefore come back rounded, and near 2^63 the conversion back to an integer can even go negative. The model returns the exact count, so it does not capture this. Reaching it takes more than 2^53 calls in one window.
