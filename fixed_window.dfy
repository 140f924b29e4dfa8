/** FixedWindowRateLimiter: one script call per request against the shared store, and the
    strict comparison of the returned count with max_request. */
module FixedWindow {
  import opened RedisModel

  /** A limiter's configuration as its constructor stores it: neither value is checked. */
  datatype Limiter = Limiter(windowSize: int, maxRequest: int)

  /** What happens to the round trip to Redis: it succeeds; it fails before reaching the
      server (nothing changes); or the script runs but its reply is lost (the count is
      consumed, the caller still sees an exception). */
  datatype Fault = Healthy | Unreachable | ReplyLost

  /** What has_limit_exceeded does: return True, fall through and return None, or raise. */
  datatype CheckResult = ReturnedTrue | ReturnedNone | Raised

  predicate Exceeded(count: int, maxRequest: int)
  {
    count > maxRequest
  }

  /** The max_request-th call is still admitted; the next one is not. */
  lemma ExceededBoundary(maxRequest: int, count: int)
    ensures !Exceeded(maxRequest, maxRequest) && Exceeded(maxRequest + 1, maxRequest)
    ensures Exceeded(count, maxRequest) <==> count >= maxRequest + 1
  {
  }

  /** How has_limit_exceeded turns the script's reply into its own result; an error reply
      surfaces as an exception. */
  function Interpret(reply: Reply, maxRequest: int): CheckResult
  {
    match reply
    case Count(n) => if Exceeded(n, maxRequest) then ReturnedTrue else ReturnedNone
    case _ => Raised
  }

  /** The result of has_limit_exceeded(key) against counters `m` at tick `now`. */
  function Check(lim: Limiter, m: Counters, now: int, key: string, fault: Fault): (c: CheckResult)
    ensures c == ReturnedTrue <==>
              fault == Healthy && Counter(m, key) < I64_MAX && Counter(m, key) + 1 > lim.maxRequest
    ensures c == Raised <==> fault != Healthy || Counter(m, key) >= I64_MAX
  {
    if fault != Healthy then Raised
    else Interpret(Increment(m, now, key, lim.windowSize).reply, lim.maxRequest)
  }

  /** FixedWindowRateLimiter.has_limit_exceeded: EVALSHA the script, fall back to EVAL on
      NOSCRIPT, compare the count. Reply and store effect do not depend on whether the
      script was cached. */
  method HasLimitExceeded(lim: Limiter, store: RedisStore, key: string, fault: Fault)
    returns (c: CheckResult)
    requires store.Valid()
    modifies store
    ensures store.Valid()
    ensures store.now == old(store.now)
    ensures c == Check(lim, old(store.entries), store.now, key, fault)
    ensures store.entries ==
              if fault == Unreachable then old(store.entries)
              else Increment(old(store.entries), store.now, key, lim.windowSize).after
    ensures store.scriptCached == (old(store.scriptCached) || fault != Unreachable)
  {
    if fault == Unreachable {
      return Raised;
    }
    var count := store.EvalSha(key, lim.windowSize);
    if count == NoScript {
      count := store.Eval(key, lim.windowSize);
    }
    if fault == ReplyLost {
      return Raised;
    }
    if count.Count? && Exceeded(count.value, lim.maxRequest) {
      c := ReturnedTrue;
    } else if count.Count? {
      c := ReturnedNone;
    } else {
      c := Raised;
    }
  }

  /** A request whose reply was lost after the script ran, and its retry: the first call
      raises, yet it consumed quota, so the retry is judged on a count two above the
      stored one. */
  method RetryAfterLostReply(lim: Limiter, store: RedisStore, key: string)
    returns (first: CheckResult, retry: CheckResult)
    requires store.Valid()
    modifies store
    ensures store.Valid() && store.now == old(store.now)
    ensures first == Raised
    ensures retry ==
              Check(lim, Increment(old(store.entries), store.now, key, lim.windowSize).after,
                    store.now, key, Healthy)
    ensures store.entries ==
              Increment(Increment(old(store.entries), store.now, key, lim.windowSize).after,
                        store.now, key, lim.windowSize).after
    ensures lim.windowSize > 0 && Counter(old(store.entries), key) + 2 <= I64_MAX ==>
              (retry == ReturnedTrue <==> Counter(old(store.entries), key) + 2 > lim.maxRequest)
  {
    first := HasLimitExceeded(lim, store, key, ReplyLost);
    retry := HasLimitExceeded(lim, store, key, Healthy);
  }

  /** Replies and final counters of healthy script calls on one key at the given ticks;
      before each call every key whose TTL ran out is gone. */
  datatype Run = Run(replies: seq<Reply>, after: Counters)

  function Calls(m: Counters, key: string, window: int, times: seq<int>): (r: Run)
    ensures |r.replies| == |times|
    decreases |times|
  {
    if times == [] then Run([], m)
    else
      var s := Increment(Expire(m, times[0]), times[0], key, window);
      var rest := Calls(s.after, key, window, times[1..]);
      Run([s.reply] + rest.replies, rest.after)
  }

  /** Running two batches of calls one after the other is running their concatenation. */
  lemma {:induction false} CallsAppend(m: Counters, key: string, window: int, xs: seq<int>, ys: seq<int>)
    ensures Calls(m, key, window, xs + ys) ==
              Run(Calls(m, key, window, xs).replies +
                    Calls(Calls(m, key, window, xs).after, key, window, ys).replies,
                  Calls(Calls(m, key, window, xs).after, key, window, ys).after)
    decreases |xs|
  {
    if xs == [] {
      assert xs + ys == ys;
    } else {
      var s := Increment(Expire(m, xs[0]), xs[0], key, window);
      assert (xs + ys)[0] == xs[0];
      assert (xs + ys)[1..] == xs[1..] + ys;
      CallsAppend(s.after, key, window, xs[1..], ys);
    }
  }

  /** While the window of a live counter `c` (expiring at `e`) is open, each call returns
      the next number and the expiry does not move. */
  lemma {:induction false} CountsWithinWindow(m: Counters, key: string, window: int, times: seq<int>, c: int, e: int)
    requires key in m && m[key].count == c && m[key].expiry == Some(e)
    requires 1 <= c && c + |times| <= I64_MAX
    requires forall i :: 0 <= i < |times| ==> times[i] < e
    ensures forall i :: 0 <= i < |times| ==>
              Calls(m, key, window, times).replies[i] == Count(c + i + 1)
    ensures key in Calls(m, key, window, times).after
    ensures Calls(m, key, window, times).after[key].count == c + |times|
    ensures Calls(m, key, window, times).after[key].expiry == Some(e)
  {
    if times != [] {
      var s := Increment(Expire(m, times[0]), times[0], key, window);
      assert key in Expire(m, times[0]);
      CountsWithinWindow(s.after, key, window, times[1..], c + 1, e);
      var r := Calls(m, key, window, times);
      forall i | 0 <= i < |times|
        ensures r.replies[i] == Count(c + i + 1)
      {
        if i > 0 {
          assert times[1..][i - 1] == times[i];
        }
      }
    }
  }

  /** A window opens at the first call on an absent key: calls at ticks below
      times[0] + window return 1, 2, 3, ... and the expiry stays at times[0] + window. */
  lemma {:induction false} FirstWindow(m: Counters, key: string, window: int, times: seq<int>)
    requires window > 0 && 0 < |times| <= I64_MAX
    requires key !in Expire(m, times[0])
    requires forall i :: 0 <= i < |times| ==> times[i] < times[0] + window
    ensures forall i :: 0 <= i < |times| ==> Calls(m, key, window, times).replies[i] == Count(i + 1)
    ensures key in Calls(m, key, window, times).after
    ensures Calls(m, key, window, times).after[key] == Entry(|times|, Some(times[0] + window))
  {
    var s := Increment(Expire(m, times[0]), times[0], key, window);
    assert s.after[key] == Entry(1, Some(times[0] + window));
    forall i | 0 <= i < |times[1..]| ensures times[1..][i] < times[0] + window {
      assert times[1..][i] == times[i + 1];
    }
    CountsWithinWindow(s.after, key, window, times[1..], 1, times[0] + window);
  }

  /** Within one window with max_request = M, calls 1..M are admitted and every later call
      is refused. */
  lemma WindowVerdicts(lim: Limiter, m: Counters, key: string, times: seq<int>)
    requires lim.windowSize > 0 && 0 < |times| <= I64_MAX
    requires key !in Expire(m, times[0])
    requires forall i :: 0 <= i < |times| ==> times[i] < times[0] + lim.windowSize
    ensures forall i :: 0 <= i < |times| ==>
              Interpret(Calls(m, key, lim.windowSize, times).replies[i], lim.maxRequest)
                == if i < lim.maxRequest then ReturnedNone else ReturnedTrue
  {
    FirstWindow(m, key, lim.windowSize, times);
  }

  /** The window is fixed, and the counter cycles absent -> counting -> absent: once the
      first window has run out, the next batch of calls counts from 1 again in a window
      anchored at its own first call. */
  lemma NextWindow(m: Counters, key: string, window: int, first: seq<int>, second: seq<int>)
    requires window > 0 && 0 < |first| <= I64_MAX && 0 < |second| <= I64_MAX
    requires key !in Expire(m, first[0])
    requires forall i :: 0 <= i < |first| ==> first[i] < first[0] + window
    requires first[0] + window <= second[0]
    requires forall i :: 0 <= i < |second| ==> second[i] < second[0] + window
    ensures forall j :: |first| <= j < |first| + |second| ==>
              Calls(m, key, window, first + second).replies[j] == Count(j - |first| + 1)
  {
    CallsAppend(m, key, window, first, second);
    FirstWindow(m, key, window, first);
    var mid := Calls(m, key, window, first).after;
    assert key !in Expire(mid, second[0]);
    FirstWindow(mid, key, window, second);
  }

  /** The number of calls in `replies` that has_limit_exceeded lets through. */
  function Admitted(replies: seq<Reply>, maxRequest: int): (n: nat)
    ensures n <= |replies|
  {
    if replies == [] then 0
    else (if Interpret(replies[0], maxRequest) == ReturnedNone then 1 else 0)
         + Admitted(replies[1..], maxRequest)
  }

  /** `x` clamped into 0..hi. */
  function Clamp(x: int, hi: nat): nat
  {
    if x < 0 then 0 else if x > hi then hi else x
  }

  /** Of the consecutive counts c+1, c+2, ... exactly those up to max_request are admitted. */
  lemma {:induction false} AdmittedConsecutive(replies: seq<Reply>, c: int, maxRequest: int)
    requires forall i :: 0 <= i < |replies| ==> replies[i].Count? && replies[i].value == c + i + 1
    ensures Admitted(replies, maxRequest) == Clamp(maxRequest - c, |replies|)
  {
    if replies != [] {
      AdmittedConsecutive(replies[1..], c + 1, maxRequest);
    }
  }

  /** N calls racing on one key within a window: whatever order the store applies them in,
      exactly min(N, M) are admitted (none when M is not positive). */
  lemma ExactlyMaxAdmitted(lim: Limiter, m: Counters, key: string, times: seq<int>)
    requires lim.windowSize > 0 && 0 < |times| <= I64_MAX
    requires key !in Expire(m, times[0])
    requires forall i :: 0 <= i < |times| ==> times[i] < times[0] + lim.windowSize
    ensures Admitted(Calls(m, key, lim.windowSize, times).replies, lim.maxRequest)
              == Clamp(lim.maxRequest, |times|)
  {
    FirstWindow(m, key, lim.windowSize, times);
    AdmittedConsecutive(Calls(m, key, lim.windowSize, times).replies, 0, lim.maxRequest);
  }
}
