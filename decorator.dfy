/** The RateLimiter decorator: it derives the key from the session, asks the limiter, fails
    open on any exception the limiter raises, and either answers 429 or calls the wrapped
    handler. */
module Decorator {
  import opened RedisModel
  import opened FixedWindow

  /** The `content` argument of RESTResponse: None, or a dict (falsy when empty). */
  datatype Content = NoContent | Dict(items: map<string, string>)

  datatype RESTResponse = RESTResponse(code: int, content: map<string, string>, httpMethod: string)

  /** RESTResponse.__init__: a falsy content becomes the empty dict. */
  function MakeResponse(code: int, content: Content, httpMethod: string): (r: RESTResponse)
    ensures r.code == code && r.httpMethod == httpMethod
    ensures r.content == map[] <==> content == NoContent || content.items == map[]
    ensures content.Dict? && content.items != map[] ==> r.content == content.items
  {
    RESTResponse(code, if content.Dict? then content.items else map[], httpMethod)
  }

  /** The response the wrapper gives instead of calling the handler. */
  function TooManyRequests(): RESTResponse
  {
    MakeResponse(429, Dict(map["error" := "too many requests"]), "GET")
  }

  /** The session attribute the wrapper reads: the API's relative URL, AUTHID included. */
  datatype AuthSession = AuthSession(apiName: string)

  /** The rate-limit key: str(auth_session.api_name). */
  function KeyOf(session: AuthSession): string
  {
    session.apiName
  }

  /** Two requests share a bucket exactly when a script call for the first one moves the
      counter the second one is judged on. */
  lemma SharedBucketIff(m: Counters, now: int, window: int, a: AuthSession, b: AuthSession)
    requires window > 0 && Counter(m, KeyOf(a)) < I64_MAX
    ensures (Counter(Increment(m, now, KeyOf(a), window).after, KeyOf(b)) == Counter(m, KeyOf(b)) + 1)
              <==> KeyOf(a) == KeyOf(b)
  {
  }

  datatype Outcome = Rejected(response: RESTResponse) | CalledHandler

  /** apply_rate_limit: an exception counts as "not limited", None is falsy. */
  function ApplyRateLimit(c: CheckResult): bool
  {
    match c
    case Raised => false
    case ReturnedNone => false
    case ReturnedTrue => true
  }

  /** What the wrapped handler's caller gets, for counters `m` at tick `now`. */
  function Guard(lim: Limiter, m: Counters, now: int, session: AuthSession, fault: Fault): (o: Outcome)
    // a refusal is always the 429 "too many requests" response
    ensures o.Rejected? ==>
              o.response == RESTResponse(429, map["error" := "too many requests"], "GET")
    // fail open: any trouble with the backend lets the request through
    ensures fault != Healthy ==> o == CalledHandler
    // refused exactly when this request is beyond the max_request-th in the bucket
    ensures o.Rejected? <==>
              fault == Healthy && Counter(m, KeyOf(session)) < I64_MAX &&
              Exceeded(Counter(m, KeyOf(session)) + 1, lim.maxRequest)
  {
    if ApplyRateLimit(Check(lim, m, now, KeyOf(session), fault)) then Rejected(TooManyRequests())
    else CalledHandler
  }

  /** Calls on one bucket do not change the verdict for any other bucket. */
  lemma BucketsIndependent(lim: Limiter, m: Counters, now: int, key: string, window: int,
                           session: AuthSession, fault: Fault)
    requires KeyOf(session) != key
    ensures Guard(lim, Increment(m, now, key, window).after, now, session, fault)
              == Guard(lim, m, now, session, fault)
  {
  }

  /** The decorated handler: RateLimiter.__call__'s wrapper around one request. */
  method Wrapper(lim: Limiter, store: RedisStore, session: AuthSession, fault: Fault)
    returns (o: Outcome)
    requires store.Valid()
    modifies store
    ensures store.Valid()
    ensures store.now == old(store.now)
    ensures o == Guard(lim, old(store.entries), store.now, session, fault)
    ensures store.entries ==
              if fault == Unreachable then old(store.entries)
              else Increment(old(store.entries), store.now, KeyOf(session), lim.windowSize).after
    ensures store.scriptCached == (old(store.scriptCached) || fault != Unreachable)
  {
    var key := KeyOf(session);
    var applyRateLimit: bool;
    var c := HasLimitExceeded(lim, store, key, fault);
    if c == Raised {
      applyRateLimit := false;
    } else {
      applyRateLimit := c == ReturnedTrue;
    }
    if applyRateLimit {
      return Rejected(TooManyRequests());
    }
    o := CalledHandler;
  }

  /** A limiter of 3 requests per 60 ticks: three requests pass, the fourth gets 429, a
      fifth during a backend outage passes (fail open), and once the window has run out the
      next request passes again. */
  method FixedWindowScenario() returns (outcomes: seq<Outcome>)
    ensures outcomes == [CalledHandler, CalledHandler, CalledHandler,
                         Rejected(TooManyRequests()), CalledHandler, CalledHandler]
  {
    var store := new RedisStore(0);
    var lim := Limiter(60, 3);
    var session := AuthSession("/v1/Account/MA0001/Call/");
    var key := KeyOf(session);
    var o1 := Wrapper(lim, store, session, Healthy);
    assert store.entries[key] == Entry(1, Some(60));
    store.Advance(10);
    var o2 := Wrapper(lim, store, session, Healthy);
    var o3 := Wrapper(lim, store, session, Healthy);
    assert store.entries[key] == Entry(3, Some(60));
    var o4 := Wrapper(lim, store, session, Healthy);
    var o5 := Wrapper(lim, store, session, Unreachable);
    store.Advance(50);
    assert key !in store.entries;
    var o6 := Wrapper(lim, store, session, Healthy);
    outcomes := [o1, o2, o3, o4, o5, o6];
  }
}
