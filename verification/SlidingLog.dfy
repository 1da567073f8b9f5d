/**
 The reference semantics of the rate limiter: a log of admission times and nothing else.
 One client, a limit L, windows of w seconds; the bucket of a time starts at the last
 multiple of w. Weighted totals are scaled by w: total*w = current*w + previous*(w - elapsed).
 */
module SlidingLog {

  /** What the script answers: the admit flag, the total truncated by Redis, the reset time. */
  datatype Reply = Reply(allowed: bool, total: int, resetTime: int)

  /** Where the bucket of `now` starts. */
  function Start(now: int, w: int): int
    requires w >= 1
  {
    now - now % w
  }

  function Scaled(current: nat, previous: nat, w: int, elapsed: int): int {
    current * w + previous * (w - elapsed)
  }

  /** The script's decision on the two counters it reads (services/redis_service.py:57-79). */
  function Decide(current: nat, previous: nat, limit: int, w: int, now: int): Reply
    requires w >= 1
  {
    var scaled := Scaled(current, previous, w, now % w);
    if scaled >= limit * w
    then Reply(false, scaled / w, Start(now, w) + w)
    else Reply(true, scaled / w + 1, Start(now, w) + w)
  }

  /** Number of log entries in [lo, hi). */
  function Count(log: seq<int>, lo: int, hi: int): nat {
    if log == [] then 0
    else Count(log[..|log| - 1], lo, hi) + if lo <= log[|log| - 1] < hi then 1 else 0
  }

  function Current(log: seq<int>, w: int, now: int): nat
    requires w >= 1
  {
    Count(log, Start(now, w), Start(now, w) + w)
  }

  function Previous(log: seq<int>, w: int, now: int): nat
    requires w >= 1
  {
    Count(log, Start(now, w) - w, Start(now, w))
  }

  /** What an exact sliding log counts at time `now`: the entries in (now - w, now]. */
  function InWindow(log: seq<int>, w: int, now: int): nat {
    Count(log, now - w + 1, now + 1)
  }

  /** The part of that window lying in the previous bucket. */
  function Tail(log: seq<int>, w: int, now: int): nat
    requires w >= 1
  {
    Count(log, now - w + 1, Start(now, w))
  }

  function LogReply(log: seq<int>, limit: int, w: int, now: int): Reply
    requires w >= 1
  {
    Decide(Current(log, w, now), Previous(log, w, now), limit, w, now)
  }

  function LogStep(log: seq<int>, limit: int, w: int, now: int): seq<int>
    requires w >= 1
  {
    if LogReply(log, limit, w, now).allowed then log + [now] else log
  }

  ghost predicate Sorted(log: seq<int>) {
    forall i, j :: 0 <= i < j < |log| ==> log[i] <= log[j]
  }

  ghost predicate UpTo(log: seq<int>, now: int) {
    forall i :: 0 <= i < |log| ==> log[i] <= now
  }

  /** A log the limiter can produce: in time order, every entry admitted on the entries before it. */
  ghost predicate ValidLog(log: seq<int>, limit: int, w: int)
    requires w >= 1
  {
    Sorted(log) && forall i :: 0 <= i < |log| ==> LogReply(log[..i], limit, w, log[i]).allowed
  }

  // ---- counting ----

  lemma {:induction false} CountSplit(log: seq<int>, lo: int, mid: int, hi: int)
    requires lo <= mid <= hi
    ensures Count(log, lo, hi) == Count(log, lo, mid) + Count(log, mid, hi)
  {
    if log == [] {
    } else {
      CountSplit(log[..|log| - 1], lo, mid, hi);
    }
  }

  lemma {:induction false} CountNone(log: seq<int>, lo: int, hi: int)
    requires forall i :: 0 <= i < |log| ==> !(lo <= log[i] < hi)
    ensures Count(log, lo, hi) == 0
  {
    if log == [] {
    } else {
      CountNone(log[..|log| - 1], lo, hi);
    }
  }

  lemma CountAppend(log: seq<int>, t: int, lo: int, hi: int)
    ensures Count(log + [t], lo, hi) == Count(log, lo, hi) + if lo <= t < hi then 1 else 0
  {
    assert (log + [t])[..|log|] == log;
  }

  /** An entry appended inside or outside the counted span. */
  lemma CountLast(log: seq<int>, lo: int, hi: int)
    requires log != []
    ensures Count(log, lo, hi) == Count(log[..|log| - 1], lo, hi) + if lo <= log[|log| - 1] < hi then 1 else 0
  {
  }

  // ---- buckets ----

  lemma StartBounds(t: int, w: int)
    requires w >= 1
    ensures Start(t, w) <= t < Start(t, w) + w
    ensures Start(t, w) == t / w * w
  {
  }

  lemma MulMono(a: int, b: int, w: int)
    requires a <= b && w >= 0
    ensures a * w <= b * w
  {
  }

  lemma MulCancel(a: int, b: int, w: int)
    requires w >= 1 && a * w < b * w
    ensures a < b
  {
    if b <= a { MulMono(b, a, w); }
  }

  /** Bucket starts are a whole number of windows apart. */
  lemma StartOrder(t: int, now: int, w: int)
    requires w >= 1 && t <= now
    ensures Start(t, w) <= Start(now, w)
    ensures Start(t, w) < Start(now, w) ==> Start(t, w) + w <= Start(now, w)
  {
    StartBounds(t, w);
    StartBounds(now, w);
    QuotientOrder(t / w, now / w, w);
  }

  lemma QuotientOrder(a: int, b: int, w: int)
    requires w >= 1 && a * w < b * w + w
    ensures a * w <= b * w
    ensures a * w < b * w ==> a * w + w <= b * w
  {
    assert b * w + w == (b + 1) * w;
    MulCancel(a, b + 1, w);
    MulMono(a, b, w);
    if a < b {
      MulMono(a + 1, b, w);
      assert (a + 1) * w == a * w + w;
    }
  }

  /** The start of the next bucket is itself a bucket start. */
  lemma StartOfNext(now: int, w: int)
    requires w >= 1
    ensures Start(Start(now, w) + w, w) == Start(now, w) + w
    ensures (Start(now, w) + w) % w == 0
  {
    var r := Start(now, w) + w;
    StartOrder(now, r, w);
    StartBounds(now, w);
    StartBounds(r, w);
  }

  /** Nothing has been counted in a bucket that starts after the log's last time. */
  lemma NothingYet(log: seq<int>, last: int, lo: int, hi: int)
    requires UpTo(log, last) && last < lo
    ensures Count(log, lo, hi) == 0
  {
    CountNone(log, lo, hi);
  }

  /** Current bucket plus tail is the exact window. */
  lemma WindowIsTailPlusCurrent(log: seq<int>, w: int, now: int)
    requires w >= 1 && UpTo(log, now)
    ensures InWindow(log, w, now) == Tail(log, w, now) + Current(log, w, now)
    ensures Tail(log, w, now) <= Previous(log, w, now)
  {
    StartBounds(now, w);
    var start := Start(now, w);
    CountSplit(log, now - w + 1, start, now + 1);
    CountSplit(log, start, now + 1, start + w);
    NothingYet(log, now, now + 1, start + w);
    CountSplit(log, start - w, now - w + 1, start);
  }

  // ---- the arithmetic of the weighted total ----

  /** Admitting one more request below the limit keeps the total below limit + 1. */
  lemma AdmitTotal(c: nat, p: nat, limit: int, w: int, e: int)
    requires 0 <= e < w && Scaled(c, p, w, e) < limit * w
    ensures Scaled(c + 1, p, w, e) < (limit + 1) * w
    ensures c < limit
  {
    MulMono(0, w - e, p);
    MulCancel(c, limit, w);
  }

  /** Time passing within a bucket only lowers the total. */
  lemma DecayTotal(c: nat, p: nat, w: int, e1: int, e2: int)
    requires 0 <= e1 <= e2 < w
    ensures Scaled(c, p, w, e2) <= Scaled(c, p, w, e1)
  {
    MulMono(w - e2, w - e1, p);
  }

  /** Rolling into the next bucket leaves at most the old bucket's count. */
  lemma RollTotal(p: nat, limit: int, w: int, e: int)
    requires 0 <= e < w && p <= limit
    ensures Scaled(0, p, w, e) <= limit * w < (limit + 1) * w
    ensures e > 0 && limit > 0 ==> Scaled(0, p, w, e) < limit * w
    ensures e == 0 ==> (Scaled(0, p, w, e) < limit * w <==> p < limit)
  {
    MulMono(p, limit, w - e);
    MulMono(w - e, w, limit);
    assert limit * (w - e) == limit * w - limit * e;
    if e > 0 && limit > 0 { MulMono(1, e, limit); }
    if e == 0 && p < limit { MulMono(p + 1, limit, w); }
  }

  // ---- what the reply says ----

  lemma OneMoreQuotient(n: int, w: int)
    requires w >= 1
    ensures (n + w) / w == n / w + 1
  {
    var q, r := n / w, (n + w) / w;
    assert q * w <= n < q * w + w && r * w <= n + w < r * w + w;
    assert (q + 1) * w == q * w + w && (q + 2) * w == q * w + 2 * w && (r + 1) * w == r * w + w;
    MulCancel(r, q + 2, w);
    MulCancel(q + 1, r + 1, w);
  }

  lemma OneMoreTotal(c: nat, share: int, w: int)
    requires w >= 1
    ensures (c * w + share) / w + 1 == ((c + 1) * w + share) / w
  {
    assert (c + 1) * w == c * w + w;
    OneMoreQuotient(c * w + share, w);
  }

  /** The start of the next bucket: after `now`, by at most a window. */
  lemma NextBucket(now: int, w: int)
    requires w >= 1
    ensures var r := Start(now, w) + w; r % w == 0 && now < r <= now + w
  {
    StartBounds(now, w);
    StartOfNext(now, w);
  }

  lemma CountsAfter(log: seq<int>, w: int, now: int)
    requires w >= 1
    ensures Current(log + [now], w, now) == Current(log, w, now) + 1
    ensures Previous(log + [now], w, now) == Previous(log, w, now)
  {
    StartBounds(now, w);
    CountAppend(log, now, Start(now, w), Start(now, w) + w);
    CountAppend(log, now, Start(now, w) - w, Start(now, w));
  }

  /** The decision on two counters, in terms of what the current one becomes. */
  lemma DecideTotal(c: nat, p: nat, limit: int, w: int, now: int)
    requires w >= 1
    ensures var reply := Decide(c, p, limit, w, now);
            && (reply.allowed <==> c * w + p * (w - now % w) < limit * w)
            && reply.total == ((if reply.allowed then c + 1 else c) * w + p * (w - now % w)) / w
  {
    OneMoreTotal(c, p * (w - now % w), w);
  }

  /**
   A call is admitted iff the weighted total before it is below the limit. The total answered is the
   weighted total after the call, rounded down, so an admitted call counts itself; the reset time is
   the next bucket edge.
   */
  lemma ReplyCountsTheCall(log: seq<int>, limit: int, w: int, now: int)
    requires w >= 1
    ensures var reply, after := LogReply(log, limit, w, now), LogStep(log, limit, w, now);
            && (reply.allowed <==> Current(log, w, now) * w + Previous(log, w, now) * (w - now % w) < limit * w)
            && after == (if reply.allowed then log + [now] else log)
            && reply.total == (Current(after, w, now) * w + Previous(after, w, now) * (w - now % w)) / w
            && reply.resetTime % w == 0 && now < reply.resetTime <= now + w
  {
    NextBucket(now, w);
    CountsAfter(log, w, now);
    DecideTotal(Current(log, w, now), Previous(log, w, now), limit, w, now);
  }

  // ---- the total stays below limit + 1 ----

  lemma ValidPrefix(log: seq<int>, k: nat, limit: int, w: int)
    requires w >= 1 && k <= |log| && ValidLog(log, limit, w)
    ensures ValidLog(log[..k], limit, w)
  {
    forall i | 0 <= i < k
      ensures LogReply(log[..k][..i], limit, w, log[..k][i]).allowed
    {
      assert log[..k][..i] == log[..i];
    }
  }

  /** At the very second of the newest entry. */
  lemma TotalAtLast(log: seq<int>, limit: int, w: int)
    requires w >= 1 && ValidLog(log, limit, w) && log != []
    ensures var t := log[|log| - 1];
            && Scaled(Current(log, w, t), Previous(log, w, t), w, t % w) < (limit + 1) * w
            && Current(log, w, t) <= limit
  {
    var n := |log| - 1;
    var t := log[n];
    assert LogReply(log[..n], limit, w, log[n]).allowed;
    StartBounds(t, w);
    AdmitTotal(Current(log[..n], w, t), Previous(log[..n], w, t), limit, w, t % w);
  }

  /** In a bucket that starts after the newest entry. */
  lemma TotalAfterRoll(log: seq<int>, limit: int, w: int, now: int)
    requires w >= 1 && log != [] && Start(log[|log| - 1], w) < Start(now, w) && UpTo(log, log[|log| - 1])
    requires log[|log| - 1] <= now && 0 <= Current(log, w, log[|log| - 1]) <= limit
    ensures Scaled(Current(log, w, now), Previous(log, w, now), w, now % w) < (limit + 1) * w
    ensures Current(log, w, now) <= limit && Previous(log, w, now) <= limit
  {
    var t := log[|log| - 1];
    StartBounds(now, w);
    StartBounds(t, w);
    StartOrder(t, now, w);
    NothingYet(log, t, Start(now, w), Start(now, w) + w);
    if Start(t, w) + w < Start(now, w) {
      StartsApart(t, now, w);
      NothingYet(log, t, Start(now, w) - w, Start(now, w));
    }
    RollTotal(Previous(log, w, now), limit, w, now % w);
  }

  /** Whatever the log, as soon as its entries are behind `now` the weighted total is below limit + 1. */
  lemma {:induction false} TotalBelow(log: seq<int>, limit: int, w: int, now: int)
    requires w >= 1 && limit >= 0 && ValidLog(log, limit, w) && UpTo(log, now)
    ensures Scaled(Current(log, w, now), Previous(log, w, now), w, now % w) < (limit + 1) * w
    ensures Current(log, w, now) <= limit && Previous(log, w, now) <= limit
    decreases |log|
  {
    StartBounds(now, w);
    if log == [] {
      RollTotal(0, limit, w, now % w);
    } else {
      var n := |log| - 1;
      var t := log[n];
      assert UpTo(log, t);
      TotalAtLast(log, limit, w);
      StartOrder(t, now, w);
      StartBounds(t, w);
      if Start(t, w) == Start(now, w) {
        DecayTotal(Current(log, w, t), Previous(log, w, t), w, t % w, now % w);
        ValidPrefix(log, n, limit, w);
        TotalBelow(log[..n], limit, w, t);
        CountLast(log, Start(t, w) - w, Start(t, w));
      } else {
        TotalAfterRoll(log, limit, w, now);
      }
    }
  }

  lemma StartsApart(t: int, now: int, w: int)
    requires w >= 1 && Start(t, w) + w < Start(now, w)
    ensures Start(t, w) + 2 * w <= Start(now, w)
    ensures t < Start(now, w) - w
  {
    StartBounds(t, w);
    StartOfNext(t, w);
    StartBounds(now, w);
    StartOrder(Start(t, w) + w, now, w);
  }

  // ---- how far the admitted traffic can exceed the limit ----

  lemma BoundArith(a: nat, tail: nat, c: nat, p: nat, limit: int, w: int, e: int)
    requires a == tail + c && tail <= p && w >= 1
    requires Scaled(c, p, w, e) < (limit + 1) * w
    ensures a * w < (limit + 1) * w + p * e
  {
    MulMono(tail, p, w);
    assert a * w == tail * w + c * w;
    assert p * (w - e) == p * w - p * e;
  }

  lemma BoundAtEnd(log: seq<int>, limit: int, w: int, now: int)
    requires w >= 1 && limit >= 0 && ValidLog(log, limit, w) && UpTo(log, now)
    ensures InWindow(log, w, now) * w < (limit + 1) * w + Previous(log, w, now) * (now % w)
    ensures Previous(log, w, now) <= limit
  {
    TotalBelow(log, limit, w, now);
    WindowIsTailPlusCurrent(log, w, now);
    BoundArith(InWindow(log, w, now), Tail(log, w, now), Current(log, w, now), Previous(log, w, now), limit, w, now % w);
  }

  /** For every window ending at any time, past or present. */
  lemma {:induction false} SlidingBound(log: seq<int>, limit: int, w: int, now: int)
    requires w >= 1 && limit >= 0 && ValidLog(log, limit, w)
    ensures InWindow(log, w, now) * w < (limit + 1) * w + Previous(log, w, now) * (now % w)
    ensures Previous(log, w, now) <= limit
    decreases |log|
  {
    if log != [] && now < log[|log| - 1] {
      var n := |log| - 1;
      StartBounds(now, w);
      CountLast(log, now - w + 1, now + 1);
      CountLast(log, Start(now, w) - w, Start(now, w));
      ValidPrefix(log, n, limit, w);
      SlidingBound(log[..n], limit, w, now);
    } else {
      assert UpTo(log, now);
      BoundAtEnd(log, limit, w, now);
    }
  }

  lemma TwiceArith(a: nat, p: nat, limit: int, w: int, e: int)
    requires 0 <= e < w && 0 <= p <= limit && a * w < (limit + 1) * w + p * e
    ensures a <= 2 * limit
    ensures e == 0 ==> a <= limit
  {
    MulMono(p, limit, e);
    MulMono(e, w - 1, limit);
    assert limit * (w - 1) == limit * w - limit;
    assert (2 * limit + 1) * w == (limit + 1) * w + limit * w;
    MulCancel(a, 2 * limit + 1, w);
    if e == 0 { MulCancel(a, limit + 1, w); }
  }

  /** No window holds more than twice the limit; one that ends on a bucket edge holds at most the limit. */
  lemma WindowAtMostTwice(log: seq<int>, limit: int, w: int, now: int)
    requires w >= 1 && limit >= 0 && ValidLog(log, limit, w)
    ensures InWindow(log, w, now) <= 2 * limit
    ensures now % w == 0 ==> InWindow(log, w, now) <= limit
  {
    SlidingBound(log, limit, w, now);
    TwiceArith(InWindow(log, w, now), Previous(log, w, now), limit, w, now % w);
  }

  function Burst(n: nat, t: int): seq<int> {
    seq(n, _ => t)
  }

  lemma {:induction false} CountBurst(log: seq<int>, n: nat, t: int, lo: int, hi: int)
    ensures Count(log + Burst(n, t), lo, hi) == Count(log, lo, hi) + if lo <= t < hi then n else 0
    decreases n
  {
    var all := log + Burst(n, t);
    if n == 0 {
      assert all == log;
    } else {
      assert all[..|all| - 1] == log + Burst(n - 1, t);
      CountBurst(log, n - 1, t, lo, hi);
    }
  }

  // ---- the largest window of all ----

  /** What still fits into a window on top of a full previous bucket. */
  function Room(limit: nat, w: int): (room: nat)
    requires w >= 1
    ensures room <= limit
  {
    if w == 1 then 0 else RoomFacts(limit, w); limit - 2 * limit / w
  }

  /** The most that any window of any producible log holds: see LargestWindowIsExact. */
  function LargestWindow(limit: nat, w: int): nat
    requires w >= 1
  {
    limit + Room(limit, w)
  }

  lemma RoomFacts(limit: nat, w: int)
    requires w >= 2
    ensures 0 <= 2 * limit / w <= limit
    ensures 2 * limit / w * w <= 2 * limit < 2 * limit / w * w + w
  {
    var q := 2 * limit / w;
    assert q * w <= 2 * limit < q * w + w;
    MulCancel(-1, q, w);
    MulMono(2, w, q);
  }

  lemma RoomPositive(limit: int, w: int)
    requires limit >= 1 && w >= 1
    ensures Room(limit, w) > 0 <==> w >= 3
  {
    if w >= 2 {
      RoomFacts(limit, w);
      if w >= 3 {
        MulMono(3, w, limit);
        MulCancel(2 * limit / w, limit, w);
      } else {
        MulCancel(limit, 2 * limit / w + 1, w);
      }
    }
  }

  lemma RoomFull(limit: int, w: int)
    requires limit >= 1 && w >= 1
    ensures Room(limit, w) == limit <==> w > 2 * limit
  {
    if w >= 2 {
      RoomFacts(limit, w);
      if w > 2 * limit {
        MulCancel(2 * limit / w, 1, w);
      } else {
        MulCancel(0, 2 * limit / w + 1, w);
        MulCancel(1, 2 * limit / w + 1, w);
      }
    }
  }

  lemma ShareAtMost(p: nat, limit: nat, w: int, e: int)
    requires 0 <= e <= w - 2 && p <= limit
    ensures p * e <= limit * w - 2 * limit
  {
    MulMono(p, limit, e);
    MulMono(e, w - 2, limit);
    assert limit * (w - 2) == limit * w - 2 * limit;
  }

  lemma Distribute(limit: nat, q: int, w: int)
    ensures (2 * limit + 1 - q) * w == (limit + 1) * w + limit * w - q * w
  {
  }

  /** The bound, for a window that does not end in the last second of its bucket. */
  lemma LargestArith(a: nat, p: nat, limit: nat, w: int, e: int)
    requires 0 <= e <= w - 2 && p <= limit && a * w < (limit + 1) * w + p * e
    ensures a <= LargestWindow(limit, w)
  {
    RoomFacts(limit, w);
    var q := 2 * limit / w;
    ShareAtMost(p, limit, w, e);
    assert (2 * limit + 1 - q) * w == (limit + 1) * w + limit * w - q * w by { Distribute(limit, q, w); }
    MulCancel(a, 2 * limit + 1 - q, w);
  }

  lemma WindowAtMostLargest(log: seq<int>, limit: nat, w: int, now: int)
    requires w >= 1 && ValidLog(log, limit, w)
    ensures InWindow(log, w, now) <= LargestWindow(limit, w)
  {
    StartBounds(now, w);
    if now % w == w - 1 {
      // the window is the whole bucket, the previous one a second later
      StartOfNext(now, w);
      SlidingBound(log, limit, w, now + 1);
    } else {
      SlidingBound(log, limit, w, now);
      LargestArith(InWindow(log, w, now), Previous(log, w, now), limit, w, now % w);
    }
  }

  /** A full limit in the last second of one bucket, what there is room for in the last but one of the next. */
  function LargestLog(limit: nat, w: int): seq<int>
    requires w >= 1
  {
    Burst(limit, w - 1) + Burst(Room(limit, w), 2 * w - 2)
  }

  lemma LargestLogCounts(limit: nat, k: nat, w: int, lo: int, hi: int)
    ensures Count(Burst(k, w - 1), lo, hi) == if lo <= w - 1 < hi then k else 0
    ensures Count(Burst(limit, w - 1) + Burst(k, 2 * w - 2), lo, hi)
         == (if lo <= w - 1 < hi then limit else 0) + if lo <= 2 * w - 2 < hi then k else 0
  {
    assert Burst(k, w - 1) == [] + Burst(k, w - 1) && Burst(limit, w - 1) == [] + Burst(limit, w - 1);
    CountBurst([], k, w - 1, lo, hi);
    CountBurst([], limit, w - 1, lo, hi);
    CountBurst(Burst(limit, w - 1), k, 2 * w - 2, lo, hi);
  }

  lemma FirstBurstAdmits(limit: nat, k: nat, w: int)
    requires k < limit && w >= 1
    ensures LogReply(Burst(k, w - 1), limit, w, w - 1).allowed
  {
    FirstBurstCounts(k, w);
    FirstBurstArith(limit, k, w, (w - 1) % w);
  }

  lemma FirstBurstCounts(k: nat, w: int)
    requires w >= 1
    ensures Current(Burst(k, w - 1), w, w - 1) == k && Previous(Burst(k, w - 1), w, w - 1) == 0
  {
    assert Start(w - 1, w) == 0 by { SmallStart(w - 1, w); }
    LargestLogCounts(0, k, w, 0, w);
    LargestLogCounts(0, k, w, -w, 0);
  }

  lemma FirstBurstArith(limit: nat, k: nat, w: int, e: int)
    requires k < limit && w >= 1
    ensures Scaled(k, 0, w, e) < limit * w
  {
    MulMono(k + 1, limit, w);
    assert (k + 1) * w == k * w + w;
  }

  lemma SecondBurstAdmits(limit: nat, k: nat, w: int)
    requires w >= 2 && k < Room(limit, w)
    ensures LogReply(Burst(limit, w - 1) + Burst(k, 2 * w - 2), limit, w, 2 * w - 2).allowed
  {
    assert Start(2 * w - 2, w) == w && (2 * w - 2) % w == w - 2 by { SecondStart(w); }
    LargestLogCounts(limit, k, w, w, 2 * w);
    LargestLogCounts(limit, k, w, 0, w);
    SecondBurstArith(limit, k, w);
  }

  lemma SecondBurstArith(limit: nat, k: nat, w: int)
    requires w >= 2 && k < Room(limit, w)
    ensures Scaled(k, limit, w, w - 2) < limit * w
  {
    RoomFacts(limit, w);
    var q := 2 * limit / w;
    MulMono(k, limit - q - 1, w);
    assert (limit - q - 1) * w == limit * w - q * w - w;
  }

  lemma SmallStart(t: int, w: int)
    requires 0 <= t < w
    ensures t % w == t
  {
  }

  lemma SecondStart(w: int)
    requires w >= 2
    ensures (2 * w - 2) % w == w - 2
  {
    var t := 2 * w - 2;
    StartBounds(t, w);
    QuotientOrder(1, t / w, w);
    QuotientOrder(t / w, 1, w);
  }

  lemma LargestLogEntry(limit: nat, w: int, i: nat)
    requires w >= 1 && i < LargestWindow(limit, w)
    ensures var log := LargestLog(limit, w); |log| == LargestWindow(limit, w) && LogReply(log[..i], limit, w, log[i]).allowed
  {
    var log := LargestLog(limit, w);
    if i < limit {
      assert log[..i] == Burst(i, w - 1);
      FirstBurstAdmits(limit, i, w);
    } else {
      assert log[..i] == Burst(limit, w - 1) + Burst(i - limit, 2 * w - 2);
      SecondBurstAdmits(limit, i - limit, w);
    }
  }

  lemma LargestLogSorted(limit: nat, w: int)
    requires w >= 1
    ensures Sorted(LargestLog(limit, w))
  {
  }

  /** The log is producible, and all of it lies in one window. */
  lemma LargestLogReaches(limit: nat, w: int)
    requires w >= 1
    ensures ValidLog(LargestLog(limit, w), limit, w)
    ensures InWindow(LargestLog(limit, w), w, 2 * w - 2) == LargestWindow(limit, w)
  {
    LargestLogSorted(limit, w);
    forall i | 0 <= i < |LargestLog(limit, w)|
      ensures LogReply(LargestLog(limit, w)[..i], limit, w, LargestLog(limit, w)[i]).allowed
    {
      LargestLogEntry(limit, w, i);
    }
    LargestLogCounts(limit, Room(limit, w), w, w - 1, 2 * w - 1);
  }

  /** The bound is exact: no window of any producible log holds more, and some window holds that many. */
  lemma LargestWindowIsExact(limit: nat, w: int)
    requires w >= 1
    ensures forall log, now :: ValidLog(log, limit, w) ==> InWindow(log, w, now) <= LargestWindow(limit, w)
    ensures exists log, now :: ValidLog(log, limit, w) && InWindow(log, w, now) == LargestWindow(limit, w)
  {
    forall log, now | ValidLog(log, limit, w) ensures InWindow(log, w, now) <= LargestWindow(limit, w) {
      WindowAtMostLargest(log, limit, w, now);
    }
    LargestLogReaches(limit, w);
  }

  /** The limit can be exceeded within one window exactly when windows are longer than two seconds. */
  lemma LimitExceededIff(limit: int, w: int)
    requires limit >= 1 && w >= 1
    ensures (exists log, now :: ValidLog(log, limit, w) && InWindow(log, w, now) > limit) <==> w >= 3
  {
    LargestWindowIsExact(limit, w);
    RoomPositive(limit, w);
  }

  /** The factor of two is really reached exactly when the window is longer than twice the limit. */
  lemma DoublingIff(limit: int, w: int)
    requires limit >= 1 && w >= 1
    ensures (exists log, now :: ValidLog(log, limit, w) && InWindow(log, w, now) == 2 * limit) <==> w > 2 * limit
  {
    LargestWindowIsExact(limit, w);
    RoomFull(limit, w);
  }

  // ---- against an exact sliding log ----

  /** An exact sliding log admits when fewer than `limit` entries lie in (now - w, now]. */
  predicate ExactAdmits(log: seq<int>, limit: int, w: int, now: int) {
    InWindow(log, w, now) < limit
  }

  /** How far the tail exceeds the share the script charges for it, scaled by w. */
  function TailExcess(log: seq<int>, w: int, now: int): int
    requires w >= 1
  {
    Tail(log, w, now) * w - Previous(log, w, now) * (w - now % w)
  }

  /** What the script still has free, scaled by w. */
  function Slack(log: seq<int>, limit: int, w: int, now: int): int
    requires w >= 1
  {
    limit * w - Scaled(Current(log, w, now), Previous(log, w, now), w, now % w)
  }

  lemma ExactArith(a: nat, tail: nat, c: nat, share: int, limit: int, w: int)
    requires a == tail + c && w >= 1
    ensures a < limit <==> limit * w - (c * w + share) > tail * w - share
  {
    assert a * w == tail * w + c * w;
    if a < limit { MulMono(a + 1, limit, w); } else { MulMono(limit, a, w); }
  }

  /** The exact limiter admits when the slack exceeds the tail's excess, the script when it exceeds zero. */
  lemma ExactComparison(log: seq<int>, limit: int, w: int, now: int)
    requires w >= 1 && UpTo(log, now)
    ensures LogReply(log, limit, w, now).allowed <==> Slack(log, limit, w, now) > 0
    ensures ExactAdmits(log, limit, w, now) <==> Slack(log, limit, w, now) > TailExcess(log, w, now)
    ensures LogReply(log, limit, w, now).allowed && !ExactAdmits(log, limit, w, now) ==> TailExcess(log, w, now) > 0
    ensures !LogReply(log, limit, w, now).allowed && ExactAdmits(log, limit, w, now) ==> TailExcess(log, w, now) < 0
  {
    WindowIsTailPlusCurrent(log, w, now);
    ExactArith(InWindow(log, w, now), Tail(log, w, now), Current(log, w, now),
               Previous(log, w, now) * (w - now % w), limit, w);
  }

  /** Every admission in the log is one the exact limiter would also have made. */
  ghost predicate EveryAdmissionExact(log: seq<int>, limit: int, w: int) {
    forall i :: 0 <= i < |log| ==> ExactAdmits(log[..i], limit, w, log[i])
  }

  /** Entry `i` was let in with less tail beyond its charged share than the script had slack. */
  ghost predicate TailCovered(log: seq<int>, limit: int, w: int, i: nat)
    requires w >= 1 && i < |log|
  {
    TailExcess(log[..i], w, log[i]) < Slack(log[..i], limit, w, log[i])
  }

  lemma CoveredIsExact(log: seq<int>, limit: int, w: int, i: nat)
    requires w >= 1 && Sorted(log) && i < |log|
    ensures TailCovered(log, limit, w, i) <==> ExactAdmits(log[..i], limit, w, log[i])
  {
    assert UpTo(log[..i], log[i]);
    ExactComparison(log[..i], limit, w, log[i]);
  }

  /** A producible log stays within the limit in every window iff the tail's excess never reached the slack. */
  lemma LimitKeptIff(log: seq<int>, limit: int, w: int)
    requires w >= 1 && limit >= 0 && ValidLog(log, limit, w)
    ensures (forall now :: InWindow(log, w, now) <= limit) <==> forall i :: 0 <= i < |log| ==> TailCovered(log, limit, w, i)
  {
    forall i | 0 <= i < |log|
      ensures TailCovered(log, limit, w, i) <==> ExactAdmits(log[..i], limit, w, log[i])
    {
      CoveredIsExact(log, limit, w, i);
    }
    if i :| 0 <= i < |log| && !TailCovered(log, limit, w, i) {
      OverAdmission(log, limit, w, i);
    } else {
      forall now ensures InWindow(log, w, now) <= limit {
        LimitKeptByExact(log, limit, w, now);
      }
    }
  }

  lemma OverAdmission(log: seq<int>, limit: int, w: int, i: nat)
    requires i < |log| && w >= 1 && !ExactAdmits(log[..i], limit, w, log[i])
    ensures InWindow(log, w, log[i]) > limit
  {
    var now := log[i];
    CountAppend(log[..i], now, now - w + 1, now + 1);
    assert log[..i] + [now] == log[..i + 1];
    CountGrows(log, i + 1, now - w + 1, now + 1);
  }

  lemma {:induction false} CountGrows(log: seq<int>, k: nat, lo: int, hi: int)
    requires k <= |log|
    ensures Count(log[..k], lo, hi) <= Count(log, lo, hi)
    decreases |log|
  {
    if k < |log| {
      CountGrows(log[..|log| - 1], k, lo, hi);
      assert log[..|log| - 1][..k] == log[..k];
    } else {
      assert log[..k] == log;
    }
  }

  lemma ExactPrefix(log: seq<int>, limit: int, w: int)
    requires log != [] && EveryAdmissionExact(log, limit, w)
    ensures EveryAdmissionExact(log[..|log| - 1], limit, w)
  {
    var rest := log[..|log| - 1];
    forall i | 0 <= i < |rest| ensures ExactAdmits(rest[..i], limit, w, rest[i]) {
      assert rest[..i] == log[..i];
    }
  }

  /** A window that ends after the entries, at or after `t`, holds no more than the one that ends at `t`. */
  lemma WindowOfNewest(log: seq<int>, w: int, t: int, now: int)
    requires UpTo(log, t) && now - w < t <= now
    ensures InWindow(log, w, now) <= InWindow(log, w, t)
  {
    CountSplit(log, t - w + 1, now - w + 1, t + 1);
    CountSplit(log, now - w + 1, t + 1, now + 1);
    NothingYet(log, t, t + 1, now + 1);
  }

  lemma {:induction false} LimitKeptByExact(log: seq<int>, limit: int, w: int, now: int)
    requires w >= 1 && limit >= 0 && Sorted(log) && EveryAdmissionExact(log, limit, w)
    ensures InWindow(log, w, now) <= limit
    decreases |log|
  {
    if log == [] {
    } else {
      var n := |log| - 1;
      var rest := log[..n];
      ExactPrefix(log, limit, w);
      LimitKeptByExact(rest, limit, w, now);
      if now - w + 1 <= log[n] < now + 1 {
        assert ExactAdmits(log[..n], limit, w, log[n]);
        WindowOfNewest(rest, w, log[n], now);
      }
    }
  }

  /** If the tail never exceeds its share at an admission, no window ever holds more than the limit. */
  lemma FairTailsKeepLimit(log: seq<int>, limit: int, w: int, now: int)
    requires w >= 1 && limit >= 0 && ValidLog(log, limit, w)
    requires forall i :: 0 <= i < |log| ==> TailExcess(log[..i], w, log[i]) <= 0
    ensures InWindow(log, w, now) <= limit
  {
    forall i | 0 <= i < |log| ensures TailCovered(log, limit, w, i) {
      assert UpTo(log[..i], log[i]) && LogReply(log[..i], limit, w, log[i]).allowed;
      ExactComparison(log[..i], limit, w, log[i]);
    }
    LimitKeptIff(log, limit, w);
  }

  lemma DenialArith(c: nat, p: nat, limit: int, w: int, e: int)
    requires 0 <= e < w && Scaled(c, p, w, e) >= limit * w
    ensures c + p >= limit
  {
    MulMono(w - e, w, p);
    assert (c + p + 1) * w == c * w + p * w + w;
    MulCancel(limit, c + p + 1, w);
  }

  /** Nobody is denied who has not had at least the limit admitted since the start of the previous bucket. */
  lemma DenialJustified(log: seq<int>, limit: int, w: int, now: int)
    requires w >= 1 && UpTo(log, now) && !LogReply(log, limit, w, now).allowed
    ensures Count(log, Start(now, w) - w, now + 1) >= limit
  {
    StartBounds(now, w);
    DenialArith(Current(log, w, now), Previous(log, w, now), limit, w, now % w);
    CountSplit(log, Start(now, w) - w, Start(now, w), now + 1);
    CountSplit(log, Start(now, w), now + 1, Start(now, w) + w);
    NothingYet(log, now, now + 1, Start(now, w) + w);
  }

  // ---- waiting ----

  /** A denied client that waits past its reset time is let in; at the reset second, iff its old bucket had room. */
  lemma BoundedWait(log: seq<int>, limit: int, w: int, denied: int, t: int)
    requires w >= 1 && limit > 0 && ValidLog(log, limit, w) && UpTo(log, denied)
    requires !LogReply(log, limit, w, denied).allowed
    requires t >= LogReply(log, limit, w, denied).resetTime
    ensures t > LogReply(log, limit, w, denied).resetTime ==> LogReply(log, limit, w, t).allowed
    ensures t == LogReply(log, limit, w, denied).resetTime ==>
              (LogReply(log, limit, w, t).allowed <==> Current(log, w, denied) < limit)
  {
    var r := Start(denied, w) + w;
    StartBounds(denied, w);
    StartBounds(t, w);
    StartOfNext(denied, w);
    StartOrder(r, t, w);
    TotalBelow(log, limit, w, denied);
    NothingYet(log, denied, Start(t, w), Start(t, w) + w);
    if Start(t, w) != r {
      NothingYet(log, denied, Start(t, w) - w, Start(t, w));
    }
    RollTotal(Previous(log, w, t), limit, w, t % w);
  }
}
