/**
 The rate limiter as it runs: Redis counters with expiry, the Lua script over them, and the
 HTTP middleware (services/redis_service.py, middleware/rate_limit.py).
 One clock serves both the script's `now` and key expiry, and it never runs backwards.
 */
module RateLimiter {
  import opened Wrappers
  import opened KeyText
  import opened SlidingLog

  // ---- Redis counters ----

  datatype Counter = Counter(count: nat, deadline: Option<int>)

  type Store = map<string, Counter>

  predicate Live(store: Store, key: string, now: int) {
    key in store && (store[key].deadline.Some? ==> now < store[key].deadline.value)
  }

  /** GET, with the script's `or "0"`. */
  function GetCount(store: Store, key: string, now: int): nat {
    if Live(store, key, now) then store[key].count else 0
  }

  function IncrKey(store: Store, key: string, now: int): Store {
    store[key := if Live(store, key, now) then store[key].(count := store[key].count + 1) else Counter(1, None)]
  }

  function ExpireKey(store: Store, key: string, seconds: int, now: int): Store {
    if Live(store, key, now) then store[key := store[key].(deadline := Some(now + seconds))] else store
  }

  /** INCR and EXPIRE touch one key. */
  predicate OthersKept(before: Store, after: Store, key: string) {
    before - {key} == after - {key}
  }

  /** One more than before; a live key keeps its expiry, a new one has none. */
  predicate Incremented(before: Store, after: Store, key: string, now: int) {
    && key in after && GetCount(after, key, now) == GetCount(before, key, now) + 1
    && after[key].deadline == (if Live(before, key, now) then before[key].deadline else None)
  }

  /** The count stays; the key lives on exactly until `until`. */
  ghost predicate LivesUntil(before: Store, after: Store, key: string, until: int)
    requires key in before
  {
    && key in after && after[key].count == before[key].count
    && forall t :: Live(after, key, t) <==> t < until
  }

  /** A live key lives until `seconds` from now, a missing one is left alone. */
  ghost predicate ExpireDone(before: Store, after: Store, key: string, seconds: int, now: int) {
    && OthersKept(before, after, key)
    && if Live(before, key, now) then LivesUntil(before, after, key, now + seconds) else after == before
  }

  class Redis {
    var store: Store

    constructor ()
      ensures store == map[]
    {
      store := map[];
    }

    method Get(key: string, now: int) returns (count: nat)
      ensures count == GetCount(store, key, now)
    {
      count := 0;
      if Live(store, key, now) {
        count := store[key].count;
      }
    }

    method Incr(key: string, now: int)
      modifies this
      ensures OthersKept(old(store), store, key) && Incremented(old(store), store, key, now)
    {
      if Live(store, key, now) {
        store := store[key := store[key].(count := store[key].count + 1)];
      } else {
        store := store[key := Counter(1, None)];
      }
    }

    method Expire(key: string, seconds: int, now: int)
      modifies this
      ensures ExpireDone(old(store), store, key, seconds, now)
    {
      if Live(store, key, now) {
        store := store[key := store[key].(deadline := Some(now + seconds))];
      }
    }
  }

  lemma SameStore(a: Store, b: Store, key: string)
    requires OthersKept(a, b, key) && (key in a <==> key in b) && (key in a ==> a[key] == b[key])
    ensures a == b
  {
    forall k ensures (k in a <==> k in b) && (k in a ==> a[k] == b[k]) {
      if k != key {
        assert k in a <==> k in a - {key};
        assert k in b <==> k in b - {key};
        if k in a { assert a[k] == (a - {key})[k] == (b - {key})[k] == b[k]; }
      }
    }
  }

  /** What INCR promises leaves only one store. */
  lemma IncrementedIsIncr(before: Store, after: Store, key: string, now: int)
    requires OthersKept(before, after, key) && Incremented(before, after, key, now)
    ensures after == IncrKey(before, key, now)
  {
    assert OthersKept(after, IncrKey(before, key, now), key);
    SameStore(after, IncrKey(before, key, now), key);
  }

  /** So does what EXPIRE promises. */
  lemma LivesUntilIsExpire(before: Store, after: Store, key: string, seconds: int, now: int)
    requires OthersKept(before, after, key) && Live(before, key, now) && LivesUntil(before, after, key, now + seconds)
    ensures after == ExpireKey(before, key, seconds, now)
  {
    var deadline := after[key].deadline;
    assert !Live(after, key, now + seconds);
    assert deadline.Some?;
    assert Live(after, key, deadline.value - 1) && !Live(after, key, deadline.value);
    assert OthersKept(after, ExpireKey(before, key, seconds, now), key);
    SameStore(after, ExpireKey(before, key, seconds, now), key);
  }

  // ---- the script ----

  /** The store after one script call, and its answer. */
  function Script(store: Store, client: string, limit: int, w: int, now: int): (Store, Reply)
    requires w >= 1
  {
    var currentKey, previousKey := CounterKey(client, now / w), CounterKey(client, now / w - 1);
    var reply := Decide(GetCount(store, currentKey, now), GetCount(store, previousKey, now), limit, w, now);
    if reply.allowed
    then (Admit(store, currentKey, previousKey, w, now), reply)
    else (store, reply)
  }

  function Admit(store: Store, currentKey: string, previousKey: string, w: int, now: int): Store {
    ExpireKey(ExpireKey(IncrKey(store, currentKey, now), currentKey, w * 2, now), previousKey, w * 2, now)
  }

  /** The script's three writes, each known only by its promises. */
  lemma AdmitBySteps(s0: Store, s1: Store, s2: Store, s3: Store, currentKey: string, previousKey: string, w: int, now: int)
    requires OthersKept(s0, s1, currentKey) && Incremented(s0, s1, currentKey, now)
    requires ExpireDone(s1, s2, currentKey, w * 2, now) && ExpireDone(s2, s3, previousKey, w * 2, now)
    ensures s3 == Admit(s0, currentKey, previousKey, w, now)
  {
    IncrementedIsIncr(s0, s1, currentKey, now);
    if Live(s1, currentKey, now) { LivesUntilIsExpire(s1, s2, currentKey, w * 2, now); }
    if Live(s2, previousKey, now) { LivesUntilIsExpire(s2, s3, previousKey, w * 2, now); }
  }

  lemma WeightedTotal(current: nat, previous: nat, w: int, elapsed: int)
    requires 0 <= elapsed < w
    ensures (current as real + previous as real * (1.0 - elapsed as real / w as real)) * w as real
         == Scaled(current, previous, w, elapsed) as real
  {
    var r := elapsed as real / w as real;
    assert r * w as real == elapsed as real;
    assert (previous as real * (1.0 - r)) * w as real == previous as real * (w as real - elapsed as real);
  }

  lemma CompareScaled(x: real, n: int, w: int, limit: int)
    requires w >= 1 && x * w as real == n as real
    ensures x >= limit as real <==> n >= limit * w
  {
    var l, v := limit as real, w as real;
    assert (limit * w) as real == l * v;
    if x >= l { RealMulMono(l, x, v); } else { RealMulLess(x, l, v); }
  }

  lemma FloorOfQuotient(x: real, n: int, w: int)
    requires w >= 1 && x * w as real == n as real
    ensures x.Floor == n / w
  {
    var q := n / w;
    QuotientBounds(n, w);
    CompareScaled(x, n, w, q);
    CompareScaled(x, n, w, q + 1);
  }

  lemma QuotientBounds(n: int, w: int)
    requires w >= 1
    ensures n / w * w <= n < (n / w + 1) * w
  {
  }

  lemma RealMulMono(a: real, b: real, w: real)
    requires a <= b && w > 0.0
    ensures a * w <= b * w
  {
  }

  lemma RealMulLess(a: real, b: real, w: real)
    requires a < b && w > 0.0
    ensures a * w < b * w
  {
  }

  /** The script's real-number comparison and truncation are the scaled integer ones. */
  lemma RealDecision(current: nat, previous: nat, limit: int, w: int, now: int, total: real)
    requires w >= 1
    requires total == current as real + previous as real * (1.0 - (now % w) as real / w as real)
    ensures total >= limit as real <==> Scaled(current, previous, w, now % w) >= limit * w
    ensures total.Floor == Scaled(current, previous, w, now % w) / w
    ensures (total + 1.0).Floor == Scaled(current, previous, w, now % w) / w + 1
  {
    WeightedTotal(current, previous, w, now % w);
    FloorOfQuotient(total, Scaled(current, previous, w, now % w), w);
    CompareScaled(total, Scaled(current, previous, w, now % w), w, limit);
  }

  lemma CountsAfterAdmit(store: Store, currentKey: string, previousKey: string, w: int, now: int)
    requires w >= 1 && currentKey != previousKey
    ensures var after := Admit(store, currentKey, previousKey, w, now);
            && GetCount(after, currentKey, now) == GetCount(store, currentKey, now) + 1
            && GetCount(after, previousKey, now) == GetCount(store, previousKey, now)
  {
  }

  /**
   The answer in terms of the counters before and after the call: admitted iff their weighted total
   was below the limit; the total answered is what it is now, rounded down; the reset time is the
   next bucket edge.
   */
  ghost predicate Answers(before: Store, after: Store, client: string, limit: int, w: int, now: int, reply: Reply)
    requires w >= 1
  {
    var currentKey, previousKey := CounterKey(client, now / w), CounterKey(client, now / w - 1);
    && (reply.allowed <==>
          GetCount(before, currentKey, now) * w + GetCount(before, previousKey, now) * (w - now % w) < limit * w)
    && (!reply.allowed ==> after == before)
    && reply.total == (GetCount(after, currentKey, now) * w + GetCount(after, previousKey, now) * (w - now % w)) / w
    && reply.resetTime % w == 0 && now < reply.resetTime <= now + w
  }

  lemma ScriptAnswers(store: Store, client: string, limit: int, w: int, now: int)
    requires w >= 1
    ensures var (after, reply) := Script(store, client, limit, w, now); Answers(store, after, client, limit, w, now, reply)
  {
    var currentKey, previousKey := CounterKey(client, now / w), CounterKey(client, now / w - 1);
    NextBucket(now, w);
    KeysDiffer(client, now / w, client, now / w - 1);
    CountsAfterAdmit(store, currentKey, previousKey, w, now);
    DecideTotal(GetCount(store, currentKey, now), GetCount(store, previousKey, now), limit, w, now);
  }

  /** The Lua script, step by step, over real numbers; Redis truncates the total it returns. */
  method RunScript(redis: Redis, client: string, limit: int, w: int, now: int) returns (reply: Reply)
    requires w >= 1
    modifies redis
    ensures (redis.store, reply) == Script(old(redis.store), client, limit, w, now)
  {
    var elapsed := now % w;
    var currentKey := CounterKey(client, now / w);
    var previousKey := CounterKey(client, now / w - 1);
    var current := redis.Get(currentKey, now);
    var previous := redis.Get(previousKey, now);
    var weight := 1.0 - elapsed as real / w as real;
    var total := current as real + previous as real * weight;
    var resetTime := now / w * w + w;
    RealDecision(current, previous, limit, w, now, total);
    BucketPlaces(w, now);
    if total >= limit as real {
      reply := Reply(false, total.Floor, resetTime);
    } else {
      ghost var s0 := redis.store;
      redis.Incr(currentKey, now);
      ghost var s1 := redis.store;
      redis.Expire(currentKey, w * 2, now);
      ghost var s2 := redis.store;
      redis.Expire(previousKey, w * 2, now);
      AdmitBySteps(s0, s1, s2, redis.store, currentKey, previousKey, w, now);
      reply := Reply(true, (total + 1.0).Floor, resetTime);
    }
  }

  /** check_rate_limit: what one call does to the store, and what it answers. */
  method CheckRateLimit(redis: Redis, client: string, limit: int, w: int, now: int) returns (reply: Reply)
    requires w >= 1
    modifies redis
    ensures (redis.store, reply) == Script(old(redis.store), client, limit, w, now)
    ensures Answers(old(redis.store), redis.store, client, limit, w, now, reply)
  {
    ghost var before := redis.store;
    reply := RunScript(redis, client, limit, w, now);
    ScriptAnswers(before, client, limit, w, now);
  }

  // ---- the middleware ----

  datatype Response = Response(status: int, headers: Option<Headers>)
  datatype Headers = Headers(limit: string, remaining: string, reset: string)

  const WINDOW := 60
  const LOCKED := 423
  const TOO_MANY_REQUESTS := 429

  function HeadersOf(reply: Reply, limit: int, offset: int): Headers {
    Headers(IntText(limit), IntText(limit - reply.total), ClockText(reply.resetTime + offset))
  }

  /** What the headers say to a client that reads them. */
  ghost predicate Tell(headers: Headers, limit: int, total: int, localReset: int) {
    && ReadInt(headers.limit) == limit && ReadInt(headers.remaining) == limit - total
    && |headers.reset| == 8 && ReadClock(headers.reset) == localReset % 86400
  }

  lemma HeadersTell(reply: Reply, limit: int, offset: int)
    ensures Tell(HeadersOf(reply, limit, offset), limit, reply.total, reply.resetTime + offset)
  {
    IntReadsBack(limit);
    IntReadsBack(limit - reply.total);
    ClockReadsBack(reply.resetTime + offset);
  }

  /**
   One request; `downstream` is the status the application would answer with, None if it would
   raise, which leaves the middleware without a response too. `offset` is the local time zone's.
   */
  method Dispatch(redis: Redis, host: Option<string>, limit: int, now: int, offset: int, downstream: Option<int>)
    returns (response: Option<Response>, called: bool)
    modifies redis
    ensures host.None? ==> response == Some(Response(423, None)) && !called && redis.store == old(redis.store)
    ensures host.Some? ==>
              var (after, reply) := Script(old(redis.store), "rate_limit:" + host.value, limit, 60, now);
              && redis.store == after
              && called == reply.allowed
              && (response.None? <==> called && downstream.None?)
              && (response.Some? ==>
                    && response.value.status == (if called then downstream.value else 429)
                    && response.value.headers == Some(HeadersOf(reply, limit, offset)))
  {
    if host.None? {
      return Some(Response(LOCKED, None)), false;
    }
    var reply := CheckRateLimit(redis, "rate_limit:" + host.value, limit, WINDOW, now);
    called := reply.allowed;
    var status := TOO_MANY_REQUESTS;
    if reply.allowed {
      if downstream.None? {
        return None, true;
      }
      status := downstream.value;
    }
    response := Some(Response(status, Some(HeadersOf(reply, limit, offset))));
  }

  // ---- whole runs ----

  datatype Call = Call(client: string, now: int)

  ghost predicate Ordered(calls: seq<Call>) {
    forall i, j :: 0 <= i < j < |calls| ==> calls[i].now <= calls[j].now
  }

  ghost predicate Before(calls: seq<Call>, now: int) {
    forall i :: 0 <= i < |calls| ==> calls[i].now <= now
  }

  /** The Redis store after a run that started empty. */
  function StoreAfter(calls: seq<Call>, limit: int, w: int): Store
    requires w >= 1
  {
    if calls == [] then map[]
    else
      var last := calls[|calls| - 1];
      Script(StoreAfter(calls[..|calls| - 1], limit, w), last.client, limit, w, last.now).0
  }

  /** The reference: one client's own calls, fed to the log limiter; no keys, no expiry, no other clients. */
  function LogAfter(calls: seq<Call>, client: string, limit: int, w: int): seq<int>
    requires w >= 1
  {
    if calls == [] then []
    else
      var last := calls[|calls| - 1];
      var log := LogAfter(calls[..|calls| - 1], client, limit, w);
      if last.client == client then LogStep(log, limit, w, last.now) else log
  }

  /** How the counter of the bucket starting at b*w relates to the log. */
  ghost predicate CounterOk(store: Store, client: string, log: seq<int>, w: int, b: int) {
    CounterAt(store, CounterKey(client, b), log, w, b * w)
  }

  /** The counter exists iff the bucket has entries, counts them, and outlives the next bucket but not two more. */
  ghost predicate CounterAt(store: Store, key: string, log: seq<int>, w: int, start: int) {
    var n := Count(log, start, start + w);
    && (n > 0 ==> key in store)
    && (key in store ==>
          && store[key].count == n && n > 0 && log != []
          && store[key].deadline.Some?
          && start + 2 * w <= store[key].deadline.value < start + 4 * w
          && store[key].deadline.value <= log[|log| - 1] + 2 * w)
  }

  ghost predicate Agrees(store: Store, client: string, log: seq<int>, w: int) {
    forall b {:trigger CounterOk(store, client, log, w, b)} :: CounterOk(store, client, log, w, b)
  }

  lemma KeysDiffer(c1: string, b1: int, c2: string, b2: int)
    requires c1 != c2 || b1 != b2
    ensures CounterKey(c1, b1) != CounterKey(c2, b2)
  {
    if CounterKey(c1, b1) == CounterKey(c2, b2) {
      CounterKeyInjective(c1, b1, c2, b2);
    }
  }

  lemma CurrentReadIsExact(store: Store, client: string, log: seq<int>, w: int, now: int)
    requires w >= 1 && CounterOk(store, client, log, w, now / w)
    ensures GetCount(store, CounterKey(client, now / w), now) == Current(log, w, now)
  {
    BucketPlaces(w, now);
    ReadIsExact(store, CounterKey(client, now / w), log, w, Start(now, w), now);
  }

  lemma PreviousReadIsExact(store: Store, client: string, log: seq<int>, w: int, now: int)
    requires w >= 1 && CounterOk(store, client, log, w, now / w - 1)
    ensures GetCount(store, CounterKey(client, now / w - 1), now) == Previous(log, w, now)
  {
    BucketPlaces(w, now);
    ReadIsExact(store, CounterKey(client, now / w - 1), log, w, Start(now, w) - w, now);
  }

  /** The two counters a call reads hold the log's bucket counts. */
  lemma ReadsAreExact(store: Store, client: string, log: seq<int>, w: int, now: int)
    requires w >= 1 && Agrees(store, client, log, w)
    ensures GetCount(store, CounterKey(client, now / w), now) == Current(log, w, now)
    ensures GetCount(store, CounterKey(client, now / w - 1), now) == Previous(log, w, now)
  {
    assert CounterOk(store, client, log, w, now / w) && CounterOk(store, client, log, w, now / w - 1);
    CurrentReadIsExact(store, client, log, w, now);
    PreviousReadIsExact(store, client, log, w, now);
  }

  /** Until the end of the bucket after its own, a counter is alive and right. */
  lemma ReadIsExact(store: Store, key: string, log: seq<int>, w: int, start: int, now: int)
    requires CounterAt(store, key, log, w, start) && now < start + 2 * w
    ensures GetCount(store, key, now) == Count(log, start, start + w)
    ensures key in store ==> Live(store, key, now)
  {
  }

  lemma CurrentCounterStep(store: Store, key: string, log: seq<int>, w: int, start: int, now: int)
    requires w >= 1 && start <= now < start + w && UpTo(log, now)
    requires CounterAt(store, key, log, w, start)
    ensures CounterAt(ExpireKey(IncrKey(store, key, now), key, w * 2, now), key, log + [now], w, start)
  {
    CountAppend(log, now, start, start + w);
  }

  lemma PreviousCounterStep(store: Store, key: string, log: seq<int>, w: int, start: int, now: int)
    requires w >= 1 && start + w <= now < start + 2 * w && UpTo(log, now)
    requires CounterAt(store, key, log, w, start)
    ensures CounterAt(ExpireKey(store, key, w * 2, now), key, log + [now], w, start)
  {
    CountAppend(log, now, start, start + w);
  }

  lemma OtherCounterStep(store: Store, key: string, log: seq<int>, w: int, start: int, now: int)
    requires !(start <= now < start + w) && UpTo(log, now)
    requires CounterAt(store, key, log, w, start)
    ensures CounterAt(store, key, log + [now], w, start)
  {
    CountAppend(log, now, start, start + w);
  }

  /** A counter is a matter of its own key only. */
  lemma CounterFrame(store: Store, store': Store, key: string, log: seq<int>, w: int, start: int)
    requires CounterAt(store, key, log, w, start)
    requires key in store <==> key in store'
    requires key in store ==> store[key] == store'[key]
    ensures CounterAt(store', key, log, w, start)
  {
  }

  /** Admission moves one client's counters as it moves the log; `first` is the start of the current bucket. */
  lemma AdmitStep(store: Store, currentKey: string, previousKey: string, key: string,
                  log: seq<int>, w: int, first: int, start: int, now: int)
    requires w >= 1 && UpTo(log, now) && CounterAt(store, key, log, w, start)
    requires first <= now < first + w && currentKey != previousKey
    requires if key == currentKey then start == first
             else if key == previousKey then start == first - w
             else !(start <= now < start + w)
    ensures CounterAt(Admit(store, currentKey, previousKey, w, now), key, log + [now], w, start)
  {
    var counted := ExpireKey(IncrKey(store, currentKey, now), currentKey, w * 2, now);
    var after := ExpireKey(counted, previousKey, w * 2, now);
    if key == currentKey {
      CurrentCounterStep(store, key, log, w, start, now);
      CounterFrame(counted, after, key, log + [now], w, start);
    } else if key == previousKey {
      CounterFrame(store, counted, key, log, w, start);
      PreviousCounterStep(counted, key, log, w, start, now);
    } else {
      CounterFrame(store, after, key, log, w, start);
      OtherCounterStep(after, key, log, w, start, now);
    }
  }

  lemma SameClientStep(store: Store, client: string, log: seq<int>, limit: int, w: int, now: int, b: int)
    requires w >= 1 && UpTo(log, now) && Agrees(store, client, log, w)
    ensures CounterOk(Script(store, client, limit, w, now).0, client, LogStep(log, limit, w, now), w, b)
  {
    var b0 := now / w;
    ReadsAreExact(store, client, log, w, now);
    assert CounterOk(store, client, log, w, b);
    if LogReply(log, limit, w, now).allowed {
      KeysDiffer(client, b0, client, b0 - 1);
      BucketPlaces(w, now);
      if b != b0 {
        KeysDiffer(client, b, client, b0);
        OtherBucket(b, w, now);
      }
      if b != b0 - 1 {
        KeysDiffer(client, b, client, b0 - 1);
      }
      AdmitStep(store, CounterKey(client, b0), CounterKey(client, b0 - 1), CounterKey(client, b),
                log, w, b0 * w, b * w, now);
    }
  }

  lemma SameClientAgrees(store: Store, client: string, log: seq<int>, limit: int, w: int, now: int)
    requires w >= 1 && UpTo(log, now) && Agrees(store, client, log, w)
    ensures Agrees(Script(store, client, limit, w, now).0, client, LogStep(log, limit, w, now), w)
    ensures UpTo(LogStep(log, limit, w, now), now)
  {
    forall b ensures CounterOk(Script(store, client, limit, w, now).0, client, LogStep(log, limit, w, now), w, b) {
      SameClientStep(store, client, log, limit, w, now, b);
    }
  }

  lemma BucketPlaces(w: int, now: int)
    requires w >= 1
    ensures Start(now, w) == now / w * w <= now < now / w * w + w
    ensures (now / w - 1) * w == Start(now, w) - w
  {
  }

  lemma OtherBucket(b: int, w: int, now: int)
    requires w >= 1 && b != now / w
    ensures !(b * w <= now < b * w + w)
  {
    StartBounds(now, w);
    if b < now / w {
      MulMono(b + 1, now / w, w);
      assert (b + 1) * w == b * w + w;
    } else {
      MulMono(now / w + 1, b, w);
      assert (now / w + 1) * w == now / w * w + w;
    }
  }

  lemma OtherClientStep(store: Store, caller: string, client: string, log: seq<int>, limit: int, w: int, now: int)
    requires w >= 1 && caller != client && Agrees(store, client, log, w)
    ensures Agrees(Script(store, caller, limit, w, now).0, client, log, w)
  {
    var after := Script(store, caller, limit, w, now).0;
    forall b ensures CounterOk(after, client, log, w, b) {
      assert CounterOk(store, client, log, w, b);
      KeysDiffer(client, b, caller, now / w);
      KeysDiffer(client, b, caller, now / w - 1);
    }
  }

  lemma StoreTracksLog(calls: seq<Call>, client: string, limit: int, w: int)
    requires w >= 1 && Ordered(calls)
    ensures Agrees(StoreAfter(calls, limit, w), client, LogAfter(calls, client, limit, w), w)
    ensures calls != [] ==> UpTo(LogAfter(calls, client, limit, w), calls[|calls| - 1].now)
    decreases |calls|
  {
    if calls == [] {
    } else {
      var n := |calls| - 1;
      var last := calls[n];
      StoreTracksLog(calls[..n], client, limit, w);
      var store, log := StoreAfter(calls[..n], limit, w), LogAfter(calls[..n], client, limit, w);
      assert UpTo(log, last.now);
      if last.client == client {
        SameClientAgrees(store, client, log, limit, w, last.now);
      } else {
        OtherClientStep(store, last.client, client, log, limit, w, last.now);
      }
    }
  }

  lemma LogAfterBefore(calls: seq<Call>, client: string, limit: int, w: int, now: int)
    requires w >= 1 && Ordered(calls) && Before(calls, now)
    ensures UpTo(LogAfter(calls, client, limit, w), now)
  {
    StoreTracksLog(calls, client, limit, w);
  }

  /** In every run, each answer is the log limiter's on that client's own calls: expiry and other clients are invisible. */
  lemma AnswersMatchReference(calls: seq<Call>, client: string, limit: int, w: int, now: int)
    requires w >= 1 && Ordered(calls) && Before(calls, now)
    ensures Script(StoreAfter(calls, limit, w), client, limit, w, now).1
         == LogReply(LogAfter(calls, client, limit, w), limit, w, now)
  {
    StoreTracksLog(calls, client, limit, w);
    ReadsAreExact(StoreAfter(calls, limit, w), client, LogAfter(calls, client, limit, w), w, now);
  }

  /** The logs of a run are valid, so everything proved of valid logs holds of it. */
  lemma {:induction false} RunLogsValid(calls: seq<Call>, client: string, limit: int, w: int)
    requires w >= 1 && Ordered(calls)
    ensures ValidLog(LogAfter(calls, client, limit, w), limit, w)
    decreases |calls|
  {
    if calls == [] {
    } else {
      var n := |calls| - 1;
      var last := calls[n];
      var log := LogAfter(calls[..n], client, limit, w);
      RunLogsValid(calls[..n], client, limit, w);
      if last.client == client {
        LogAfterBefore(calls[..n], client, limit, w, last.now);
        StepKeepsValid(log, limit, w, last.now);
      }
    }
  }

  lemma StepKeepsValid(log: seq<int>, limit: int, w: int, now: int)
    requires w >= 1 && ValidLog(log, limit, w) && UpTo(log, now)
    ensures ValidLog(LogStep(log, limit, w, now), limit, w)
  {
    var after := LogStep(log, limit, w, now);
    forall i | 0 <= i < |after| ensures LogReply(after[..i], limit, w, after[i]).allowed {
      if i < |log| {
        assert after[..i] == log[..i];
      } else {
        assert after[..i] == log;
      }
    }
  }

  /** X-RateLimit-Remaining is never negative, whether the request is admitted or refused. */
  lemma RemainingNeverNegative(calls: seq<Call>, client: string, limit: int, w: int, now: int)
    requires w >= 1 && limit >= 0 && Ordered(calls) && Before(calls, now)
    ensures var reply := Script(StoreAfter(calls, limit, w), client, limit, w, now).1;
            && 0 <= reply.total <= limit
            && forall offset :: '-' !in HeadersOf(reply, limit, offset).remaining
  {
    var log := LogAfter(calls, client, limit, w);
    AnswersMatchReference(calls, client, limit, w, now);
    RunLogsValid(calls, client, limit, w);
    LogAfterBefore(calls, client, limit, w, now);
    TotalBelow(log, limit, w, now);
    StartBounds(now, w);
    TruncatedTotal(Current(log, w, now), Previous(log, w, now), limit, w, now % w);
  }

  lemma TruncatedTotal(c: nat, p: nat, limit: int, w: int, e: int)
    requires 0 <= e < w && Scaled(c, p, w, e) < (limit + 1) * w
    ensures 0 <= Scaled(c, p, w, e) / w <= limit
    ensures Scaled(c, p, w, e) < limit * w ==> Scaled(c, p, w, e) / w < limit
  {
    var n := Scaled(c, p, w, e);
    MulMono(0, w - e, p);
    var q := n / w;
    assert q * w <= n < q * w + w;
    MulCancel(q, limit + 1, w);
    MulCancel(-1, q, w) by { assert q * w > n - w; }
    if n < limit * w { MulCancel(q, limit, w); }
  }

  // ---- how much gets through ----

  /** A client that calls at the times of a log, alone. */
  function CallsAt(client: string, log: seq<int>): seq<Call> {
    seq(|log|, i requires 0 <= i < |log| => Call(client, log[i]))
  }

  lemma OwnCall(calls: seq<Call>, client: string, limit: int, w: int)
    requires w >= 1 && calls != [] && calls[|calls| - 1].client == client
    ensures var n := |calls| - 1;
            LogAfter(calls, client, limit, w) == LogStep(LogAfter(calls[..n], client, limit, w), limit, w, calls[n].now)
  {
  }

  lemma AdmittedCall(log: seq<int>, limit: int, w: int)
    requires w >= 1 && log != [] && ValidLog(log, limit, w)
    ensures LogStep(log[..|log| - 1], limit, w, log[|log| - 1]) == log
  {
    assert LogReply(log[..|log| - 1], limit, w, log[|log| - 1]).allowed;
  }

  lemma {:induction false} ValidLogIsProduced(log: seq<int>, client: string, limit: int, w: int)
    requires w >= 1 && ValidLog(log, limit, w)
    ensures LogAfter(CallsAt(client, log), client, limit, w) == log
  {
    if log == [] {
    } else {
      var n := |log| - 1;
      ValidPrefix(log, n, limit, w);
      ValidLogIsProduced(log[..n], client, limit, w);
      assert CallsAt(client, log)[..n] == CallsAt(client, log[..n]);
      OwnCall(CallsAt(client, log), client, limit, w);
      AdmittedCall(log, limit, w);
    }
  }

  /** The valid logs are exactly the logs of runs. */
  lemma ValidIffProduced(log: seq<int>, client: string, limit: int, w: int)
    requires w >= 1
    ensures ValidLog(log, limit, w) <==> exists calls :: Ordered(calls) && LogAfter(calls, client, limit, w) == log
  {
    if ValidLog(log, limit, w) {
      ValidLogIsProduced(log, client, limit, w);
      assert Ordered(CallsAt(client, log));
    }
    if calls :| Ordered(calls) && LogAfter(calls, client, limit, w) == log {
      RunLogsValid(calls, client, limit, w);
    }
  }

  /** In every run no client gets more than the exact bound into any window, nor more than its limit up to a bucket edge. */
  lemma AdmittedTrafficBounded(calls: seq<Call>, client: string, limit: nat, w: int, now: int)
    requires w >= 1 && Ordered(calls)
    ensures InWindow(LogAfter(calls, client, limit, w), w, now) <= LargestWindow(limit, w) <= 2 * limit
    ensures now % w == 0 ==> InWindow(LogAfter(calls, client, limit, w), w, now) <= limit
  {
    RunLogsValid(calls, client, limit, w);
    WindowAtMostLargest(LogAfter(calls, client, limit, w), limit, w, now);
    WindowAtMostTwice(LogAfter(calls, client, limit, w), limit, w, now);
  }

  /** And any client can get that many through. */
  lemma LargestTrafficReached(client: string, limit: nat, w: int)
    requires w >= 1
    ensures exists calls, now ::
              Ordered(calls) && InWindow(LogAfter(calls, client, limit, w), w, now) == LargestWindow(limit, w)
  {
    LargestLogReaches(limit, w);
    ValidLogIsProduced(LargestLog(limit, w), client, limit, w);
    var calls := CallsAt(client, LargestLog(limit, w));
    assert Ordered(calls) && InWindow(LogAfter(calls, client, limit, w), w, 2 * w - 2) == LargestWindow(limit, w);
  }

  /** The default of config.py. */
  const LIMIT := 100

  /** As deployed, a client can get 197 requests through within a minute, and never more. */
  lemma DeployedTraffic(client: string)
    ensures forall calls, now :: Ordered(calls) ==> InWindow(LogAfter(calls, client, LIMIT, WINDOW), WINDOW, now) <= 197
    ensures exists calls, now :: Ordered(calls) && InWindow(LogAfter(calls, client, LIMIT, WINDOW), WINDOW, now) == 197
  {
    assert LargestWindow(LIMIT, WINDOW) == 197;
    LargestTrafficReached(client, LIMIT, WINDOW);
    forall calls, now | Ordered(calls) ensures InWindow(LogAfter(calls, client, LIMIT, WINDOW), WINDOW, now) <= 197 {
      AdmittedTrafficBounded(calls, client, LIMIT, WINDOW, now);
    }
  }

  /**
   A denied client is let in at every time after its reset time if nothing of its own was admitted
   since, whatever it and others asked in between; at the reset second, iff its old bucket had room.
   */
  lemma DeniedThenAdmitted(calls: seq<Call>, more: seq<Call>, client: string, limit: int, w: int, denied: int, t: int)
    requires w >= 1 && limit > 0 && Ordered(calls) && Ordered(calls + more)
    requires Before(calls, denied) && Before(calls + more, t)
    requires !Script(StoreAfter(calls, limit, w), client, limit, w, denied).1.allowed
    requires t >= Script(StoreAfter(calls, limit, w), client, limit, w, denied).1.resetTime
    requires LogAfter(calls + more, client, limit, w) == LogAfter(calls, client, limit, w)
    ensures var log := LogAfter(calls, client, limit, w);
            Script(StoreAfter(calls + more, limit, w), client, limit, w, t).1.allowed <==>
            t > Script(StoreAfter(calls, limit, w), client, limit, w, denied).1.resetTime || Current(log, w, denied) < limit
  {
    var log := LogAfter(calls, client, limit, w);
    AnswersMatchReference(calls, client, limit, w, denied);
    AnswersMatchReference(calls + more, client, limit, w, t);
    RunLogsValid(calls, client, limit, w);
    LogAfterBefore(calls, client, limit, w, denied);
    BoundedWait(log, limit, w, denied, t);
  }

  // ---- footprint ----

  /** The live keys of one client. */
  ghost function LiveKeys(store: Store, client: string, now: int): set<string> {
    set key | key in store && Live(store, key, now) && OwnKey(client, key)
  }

  ghost predicate OwnKey(client: string, key: string) {
    exists b :: key == CounterKey(client, b)
  }

  lemma LiveCounterRecent(store: Store, client: string, log: seq<int>, w: int, a: int, now: int)
    requires w >= 1 && UpTo(log, now) && CounterOk(store, client, log, w, a)
    requires Live(store, CounterKey(client, a), now)
    ensures now / w - 3 <= a <= now / w
    ensures log != [] && now < log[|log| - 1] + 2 * w
  {
    QuotientBounds(now, w);
    if a * w > now {
      NothingYet(log, now, a * w, a * w + w);
    }
    NearQuotients(a, now / w, w, now);
  }

  lemma NearQuotients(a: int, q: int, w: int, now: int)
    requires w >= 1 && a * w <= now < a * w + 4 * w && q * w <= now < (q + 1) * w
    ensures q - 3 <= a <= q
  {
    MulCancel(a, q + 1, w);
    assert (a + 4) * w == a * w + 4 * w;
    MulCancel(q, a + 4, w);
  }

  lemma SubsetSize<T>(a: set<T>, b: set<T>)
    requires a <= b
    ensures |a| <= |b|
  {
    assert b == a + (b - a);
  }

  function FourKeys(client: string, b: int): set<string> {
    {CounterKey(client, b - 3), CounterKey(client, b - 2), CounterKey(client, b - 1), CounterKey(client, b)}
  }

  lemma FourKeysHold(client: string, a: int, b: int)
    requires b - 3 <= a <= b
    ensures CounterKey(client, a) in FourKeys(client, b)
    ensures |FourKeys(client, b)| <= 4
  {
    assert a == b - 3 || a == b - 2 || a == b - 1 || a == b;
  }

  /** At any time only the counters of the current and the three previous buckets can be alive. */
  lemma FourLiveKeys(calls: seq<Call>, client: string, limit: int, w: int, now: int)
    requires w >= 1 && Ordered(calls) && Before(calls, now)
    ensures LiveKeys(StoreAfter(calls, limit, w), client, now) <= FourKeys(client, now / w)
    ensures |LiveKeys(StoreAfter(calls, limit, w), client, now)| <= 4
  {
    var store, log := StoreAfter(calls, limit, w), LogAfter(calls, client, limit, w);
    StoreTracksLog(calls, client, limit, w);
    LogAfterBefore(calls, client, limit, w, now);
    var live := LiveKeys(store, client, now);
    var b := now / w;
    forall key | key in live ensures key in FourKeys(client, b) {
      var a :| key == CounterKey(client, a);
      assert CounterOk(store, client, log, w, a);
      LiveCounterRecent(store, client, log, w, a, now);
      FourKeysHold(client, a, b);
    }
    SubsetSize(live, FourKeys(client, b));
    FourKeysHold(client, b, b);
  }

  lemma ForgottenCounter(store: Store, key: string, log: seq<int>, w: int, start: int, now: int)
    requires CounterAt(store, key, log, w, start) && (log == [] || now >= log[|log| - 1] + 2 * w)
    ensures !Live(store, key, now)
  {
  }

  /** Two windows after a client's last admitted request it occupies no memory. */
  lemma IdleClientForgotten(calls: seq<Call>, client: string, limit: int, w: int, now: int)
    requires w >= 1 && Ordered(calls)
    requires var log := LogAfter(calls, client, limit, w); log == [] || now >= log[|log| - 1] + 2 * w
    ensures LiveKeys(StoreAfter(calls, limit, w), client, now) == {}
  {
    var store, log := StoreAfter(calls, limit, w), LogAfter(calls, client, limit, w);
    StoreTracksLog(calls, client, limit, w);
    forall key | key in store && OwnKey(client, key) ensures !Live(store, key, now) {
      var a :| key == CounterKey(client, a);
      assert CounterOk(store, client, log, w, a);
      ForgottenCounter(store, key, log, w, a * w, now);
    }
  }
}
