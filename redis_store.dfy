/** The part of Redis the fixed-window limiter relies on: integer counters that may carry an
    expiry time, the server-side increment-and-expire script run as one atomic step, the
    expiry of keys as the clock advances, and the server's cache of loaded scripts.

    Time is an abstract integer tick; a key whose expiry is `e` is live while the clock is
    below `e` and gone from tick `e` on. */
module RedisModel {

  /** Redis keeps counters as signed 64-bit integers. */
  const I64_MIN: int := -0x8000_0000_0000_0000
  const I64_MAX: int := 0x7FFF_FFFF_FFFF_FFFF
  type Int64 = x: int | I64_MIN <= x <= I64_MAX

  datatype Option<T> = None | Some(value: T)

  /** One key's value: its counter, and the tick at which it expires if a TTL is set. */
  datatype Entry = Entry(count: Int64, expiry: Option<int>)

  type Counters = map<string, Entry>

  /** What a script call answers: the post-increment count, the error INCR raises when the
      counter would leave the 64-bit range, or the NOSCRIPT error EVALSHA raises when the
      server does not hold the script. */
  datatype Reply = Count(value: Int64) | Overflow | NoScript

  /** A script call's reply together with the counters it leaves behind. */
  datatype Step = Step(reply: Reply, after: Counters)

  /** The counter INCR starts from: the stored one, or 0 for an absent key. */
  function Counter(m: Counters, key: string): int
  {
    if key in m then m[key].count else 0
  }

  /** Key `k` is untouched between `m` and `m'`. */
  predicate SameAt(m: Counters, m': Counters, k: string)
  {
    (k in m <==> k in m') && (k in m ==> m[k] == m'[k])
  }

  predicate Live(e: Entry, now: int)
  {
    e.expiry.None? || now < e.expiry.value
  }

  /** INCREMENT_SCRIPT on KEYS[1] = key, ARGV[1] = window, at tick `now`: INCR the key (an
      absent key counts from 0); if the new value is 1, EXPIRE the key after `window`
      ticks, which for a non-positive window deletes it; reply with the new value. */
  function Increment(m: Counters, now: int, key: string, window: int): (s: Step)
    ensures s.reply != NoScript
    // the reply is the post-increment value, unless INCR overflows
    ensures s.reply.Count? <==> Counter(m, key) < I64_MAX
    ensures s.reply.Count? ==> s.reply.value == Counter(m, key) + 1
    // the store keeps the value it returned
    ensures s.reply.Count? && (s.reply.value != 1 || window > 0) ==>
              key in s.after && s.after[key].count == s.reply.value
    // a TTL is set only by the increment that yields 1; later ones never refresh it
    ensures s.reply.Count? && s.reply.value != 1 ==>
              key in m && s.after[key].expiry == m[key].expiry
    ensures s.reply == Count(1) && window > 0 ==> s.after[key].expiry == Some(now + window)
    ensures s.reply == Count(1) && window <= 0 ==> key !in s.after
    // a failed INCR changes nothing
    ensures s.reply == Overflow ==> s.after == m
    // only KEYS[1] is touched
    ensures forall k :: k != key ==> SameAt(m, s.after, k)
  {
    var c := Counter(m, key);
    if c >= I64_MAX then Step(Overflow, m)
    else if c + 1 == 1 then
      if window > 0 then Step(Count(1), m[key := Entry(1, Some(now + window))])
      else Step(Count(1), m - {key})
    else Step(Count(c + 1), m[key := Entry(c + 1, m[key].expiry)])
  }

  /** The store at tick `now` once every key whose TTL has run out is gone. */
  function Expire(m: Counters, now: int): (r: Counters)
    ensures forall k :: k in r <==> k in m && Live(m[k], now)
    ensures forall k :: k in r ==> r[k] == m[k]
  {
    map k | k in m && Live(m[k], now) :: m[k]
  }

  /** The shape every key has when the script is the only writer: a positive counter whose
      TTL has not run out yet. No counter lives forever. */
  predicate WellFormed(m: Counters, now: int)
  {
    forall k :: k in m ==> 1 <= m[k].count && m[k].expiry.Some? && now < m[k].expiry.value
  }

  lemma IncrementKeepsWellFormed(m: Counters, now: int, key: string, window: int)
    requires WellFormed(m, now)
    ensures WellFormed(Increment(m, now, key, window).after, now)
  {
  }

  lemma ExpireKeepsWellFormed(m: Counters, now: int, later: int)
    requires WellFormed(m, now) && now <= later
    ensures WellFormed(Expire(m, later), later)
  {
  }

  /** On a well-formed store a live key is always counted on, never re-armed: the reply is
      one more than the stored count and the expiry stays where the first call put it. */
  lemma IncrementLiveKey(m: Counters, now: int, key: string, window: int)
    requires WellFormed(m, now) && key in m && m[key].count < I64_MAX
    ensures Increment(m, now, key, window).reply == Count(m[key].count + 1)
    ensures Increment(m, now, key, window).after[key] == Entry(m[key].count + 1, m[key].expiry)
  {
  }

  /** The Redis server as the limiter sees it. */
  class RedisStore {
    var entries: Counters
    var now: int
    /** Whether the server holds INCREMENT_SCRIPT in its script cache. */
    var scriptCached: bool

    ghost predicate Valid()
      reads this
    {
      WellFormed(entries, now)
    }

    constructor (start: int)
      ensures Valid()
      ensures entries == map[] && now == start && !scriptCached
    {
      entries := map[];
      now := start;
      scriptCached := false;
    }

    /** The clock moves on by `dt` ticks and every key whose TTL ran out disappears. */
    method Advance(dt: nat)
      requires Valid()
      modifies this
      ensures Valid()
      ensures now == old(now) + dt
      ensures entries == Expire(old(entries), now)
      ensures scriptCached == old(scriptCached)
    {
      ExpireKeepsWellFormed(entries, now, now + dt);
      now := now + dt;
      entries := Expire(entries, now);
    }

    /** SCRIPT FLUSH, or a restart or failover that loses the script cache. */
    method FlushScripts()
      modifies this
      ensures !scriptCached
      ensures entries == old(entries) && now == old(now)
    {
      scriptCached := false;
    }

    /** EVALSHA of the script's digest: NOSCRIPT unless the script is cached. */
    method EvalSha(key: string, window: int) returns (r: Reply)
      requires Valid()
      modifies this
      ensures Valid()
      ensures now == old(now) && scriptCached == old(scriptCached)
      ensures !old(scriptCached) ==> r == NoScript && entries == old(entries)
      ensures old(scriptCached) ==>
                r == Increment(old(entries), now, key, window).reply &&
                entries == Increment(old(entries), now, key, window).after
    {
      if !scriptCached {
        r := NoScript;
      } else {
        IncrementKeepsWellFormed(entries, now, key, window);
        var s := Increment(entries, now, key, window);
        r, entries := s.reply, s.after;
      }
    }

    /** EVAL of the script's full text: runs it and leaves it cached. */
    method Eval(key: string, window: int) returns (r: Reply)
      requires Valid()
      modifies this
      ensures Valid()
      ensures now == old(now) && scriptCached
      ensures r == Increment(old(entries), now, key, window).reply
      ensures entries == Increment(old(entries), now, key, window).after
    {
      IncrementKeepsWellFormed(entries, now, key, window);
      var s := Increment(entries, now, key, window);
      r, entries := s.reply, s.after;
      scriptCached := true;
    }
  }
}
