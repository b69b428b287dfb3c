/**
 * The three in-memory fixed-window limiters: the keyed limiter, which prunes before it looks
 * a key up, the per-user guard, which prunes after it opens a bucket, and the global guard,
 * which never prunes.
 */
module RateLimit {
  import opened Prelude

  const PRUNE_SIZE := 10000

  datatype Bucket = Bucket(count: int, resetAt: Time)

  type Buckets = map<string, Bucket>

  datatype Request = Request(key: string, limit: int, windowMs: int, now: Time)

  datatype Limiter = Keyed | PerUser | Global

  predicate Running(m: Buckets, key: string, now: Time) {
    key in m && now < m[key].resetAt
  }

  predicate Grants(m: Buckets, r: Request) {
    Running(m, r.key, r.now) ==> m[r.key].count < r.limit
  }

  /** The buckets after a request on a limiter that keeps every bucket forever. */
  function Consume(m: Buckets, r: Request): Buckets {
    if !Running(m, r.key, r.now) then m[r.key := Bucket(1, r.now + r.windowMs)]
    else if m[r.key].count >= r.limit then m
    else m[r.key := m[r.key].(count := m[r.key].count + 1)]
  }

  function Prune(m: Buckets, now: Time): Buckets {
    map k | k in m && now < m[k].resetAt :: m[k]
  }

  /** The buckets the limiter looks the key up in. */
  function Before(which: Limiter, m: Buckets, now: Time): Buckets {
    if which.Keyed? && |m| > PRUNE_SIZE then Prune(m, now) else m
  }

  function Step(which: Limiter, m: Buckets, r: Request): Buckets {
    var looked := Before(which, m, r.now);
    var next := Consume(looked, r);
    if which.PerUser? && !Running(looked, r.key, r.now) && |next| >= PRUNE_SIZE then Prune(next, r.now) else next
  }

  function After(which: Limiter, rs: seq<Request>): Buckets {
    if rs == [] then map[] else Step(which, After(which, rs[..|rs| - 1]), rs[|rs| - 1])
  }

  /** What the limiter answers to the last request of a history. */
  predicate Answer(which: Limiter, rs: seq<Request>)
    requires rs != []
  {
    var r := rs[|rs| - 1];
    Grants(Before(which, After(which, rs[..|rs| - 1]), r.now), r)
  }

  ghost predicate Ordered(rs: seq<Request>) {
    forall i, j :: 0 <= i < j < |rs| ==> rs[i].now <= rs[j].now
  }

  // ---- Pruning is invisible --------------------------------------------------------

  /** Both tables hold the same running buckets at `now`. */
  ghost predicate Agree(a: Buckets, b: Buckets, now: Time) {
    forall k :: Running(a, k, now) == Running(b, k, now) && (Running(a, k, now) ==> a[k] == b[k])
  }

  lemma AgreeLater(a: Buckets, b: Buckets, t: Time, now: Time)
    requires Agree(a, b, t) && t <= now
    ensures Agree(a, b, now)
  {
    forall k ensures Running(a, k, now) == Running(b, k, now) && (Running(a, k, now) ==> a[k] == b[k]) {
      assert Running(a, k, t) == Running(b, k, t);
    }
  }

  lemma PruneAgrees(a: Buckets, b: Buckets, now: Time)
    requires Agree(a, b, now)
    ensures Agree(Prune(a, now), b, now)
  {
    forall k ensures Running(Prune(a, now), k, now) == Running(b, k, now) && (Running(Prune(a, now), k, now) ==> Prune(a, now)[k] == b[k]) {
      assert Running(a, k, now) == Running(b, k, now);
    }
  }

  lemma ConsumeAgrees(a: Buckets, b: Buckets, r: Request)
    requires Agree(a, b, r.now)
    ensures Agree(Consume(a, r), Consume(b, r), r.now)
  {
    assert Running(a, r.key, r.now) == Running(b, r.key, r.now);
  }

  lemma {:induction false} TablesAgree(which: Limiter, rs: seq<Request>, now: Time)
    requires Ordered(rs) && (rs != [] ==> rs[|rs| - 1].now <= now)
    ensures Agree(After(which, rs), After(Global, rs), now)
  {
    if rs != [] {
      var r, a, b := rs[|rs| - 1], After(which, rs[..|rs| - 1]), After(Global, rs[..|rs| - 1]);
      TablesAgree(which, rs[..|rs| - 1], r.now);
      PruneAgrees(a, b, r.now);
      ConsumeAgrees(Before(which, a, r.now), b, r);
      PruneAgrees(Consume(Before(which, a, r.now), r), Consume(b, r), r.now);
      AgreeLater(After(which, rs), After(Global, rs), r.now, now);
    }
  }

  /** Every limiter answers every request exactly as one that never forgets a bucket. */
  lemma PruningIsInvisible(which: Limiter, rs: seq<Request>)
    requires rs != [] && Ordered(rs)
    ensures Answer(which, rs) == Answer(Global, rs)
  {
    var r, h := rs[|rs| - 1], rs[..|rs| - 1];
    TablesAgree(which, h, r.now);
    assert Running(After(which, h), r.key, r.now) == Running(After(Global, h), r.key, r.now);
  }

  // ---- How much a window lets through -------------------------------------------------

  /** Requests for `key` in `[from, to)` that the limiter let through. */
  function GrantsIn(which: Limiter, rs: seq<Request>, key: string, from: Time, to: Time): nat {
    if rs == [] then 0
    else
      var r := rs[|rs| - 1];
      GrantsIn(which, rs[..|rs| - 1], key, from, to)
      + if r.key == key && from <= r.now < to && Answer(which, rs) then 1 else 0
  }

  function AtLeastOne(limit: int): (m: nat)
    ensures m >= 1 && m >= limit
  {
    if limit < 1 then 1 else limit
  }

  ghost predicate SameSettings(rs: seq<Request>, key: string, limit: int, window: int) {
    forall r :: r in rs && r.key == key ==> r.limit == limit && r.windowMs == window
  }

  lemma {:induction false} SplitInterval(rs: seq<Request>, key: string, from: Time, mid: Time, to: Time)
    requires from <= mid <= to
    ensures GrantsIn(Global, rs, key, from, to) == GrantsIn(Global, rs, key, from, mid) + GrantsIn(Global, rs, key, mid, to)
  {
    if rs != [] {
      SplitInterval(rs[..|rs| - 1], key, from, mid, to);
    }
  }

  /** What a bucket opened at `start` with `count` grants says about all grants of its key up to `last`. */
  ghost predicate Tells(rs: seq<Request>, key: string, top: int, window: int, start: Time, count: int, last: Time) {
    && 1 <= count <= top && start <= last
    && (forall y :: last < y ==> GrantsIn(Global, rs, key, start, y) == count)
    && (forall x, y :: start < x ==> GrantsIn(Global, rs, key, x, y) <= count - 1)
    && (forall x, y :: start + window <= x ==> GrantsIn(Global, rs, key, x, y) == 0)
    && (forall x :: start - window < x ==> GrantsIn(Global, rs, key, x, start) <= top - 1)
    && (forall x, y :: y <= x + window ==> GrantsIn(Global, rs, key, x, y) <= 2 * top - 1)
  }

  ghost predicate BucketTellsGrants(rs: seq<Request>, key: string, limit: int, window: int) {
    var m := After(Global, rs);
    if key !in m then forall x, y :: GrantsIn(Global, rs, key, x, y) == 0
    else rs != [] && Tells(rs, key, AtLeastOne(limit), window, m[key].resetAt - window, m[key].count, rs[|rs| - 1].now)
  }

  lemma LastRequest(rs: seq<Request>, key: string, x: Time, y: Time)
    requires rs != []
    ensures var r, h := rs[|rs| - 1], rs[..|rs| - 1];
            GrantsIn(Global, rs, key, x, y)
            == GrantsIn(Global, h, key, x, y) + if r.key == key && x <= r.now < y && Grants(After(Global, h), r) then 1 else 0
  {
  }

  lemma OpeningKeeps(rs: seq<Request>, key: string, limit: int, window: int)
    requires rs != [] && Ordered(rs) && SameSettings(rs, key, limit, window) && window > 0
    requires BucketTellsGrants(rs[..|rs| - 1], key, limit, window)
    requires rs[|rs| - 1].key == key && !Running(After(Global, rs[..|rs| - 1]), key, rs[|rs| - 1].now)
    ensures BucketTellsGrants(rs, key, limit, window)
  {
    var r, h, top := rs[|rs| - 1], rs[..|rs| - 1], AtLeastOne(limit);
    var m := After(Global, h);
    assert r in rs;
    forall x, y ensures GrantsIn(Global, rs, key, x, y) == GrantsIn(Global, h, key, x, y) + if x <= r.now < y then 1 else 0 {
      LastRequest(rs, key, x, y);
    }
    forall x, y | r.now <= x ensures GrantsIn(Global, h, key, x, y) == 0 {
      assert key in m ==> m[key].resetAt - window + window <= x;
    }
    forall x | r.now - window < x ensures GrantsIn(Global, h, key, x, r.now) <= top - 1 {
      if key in m {
        assert m[key].resetAt - window < x;
      }
    }
    forall x, y | y <= x + window ensures GrantsIn(Global, rs, key, x, y) <= 2 * top - 1 {
      if x <= r.now < y {
        SplitInterval(h, key, x, r.now, y);
      }
    }
  }

  /** `rs` has the grants of `h` and one more at `t` inside the running bucket. */
  lemma OneMoreGrant(rs: seq<Request>, h: seq<Request>, key: string, top: int, window: int, start: Time, count: int,
        last: Time, t: Time)
    requires Tells(h, key, top, window, start, count, last)
    requires last <= t < start + window && count < top
    requires forall x, y :: GrantsIn(Global, rs, key, x, y) == GrantsIn(Global, h, key, x, y) + if x <= t < y then 1 else 0
    ensures Tells(rs, key, top, window, start, count + 1, t)
  {
    forall x, y | y <= x + window ensures GrantsIn(Global, rs, key, x, y) <= 2 * top - 1 {
      if x <= t < y {
        assert GrantsIn(Global, h, key, start, y) == count;
        if x < start {
          SplitInterval(h, key, x, start, y);
        }
      }
    }
  }

  lemma NoMoreGrants(rs: seq<Request>, h: seq<Request>, key: string, top: int, window: int, start: Time, count: int,
        last: Time, t: Time)
    requires Tells(h, key, top, window, start, count, last) && last <= t
    requires forall x, y :: GrantsIn(Global, rs, key, x, y) == GrantsIn(Global, h, key, x, y)
    ensures Tells(rs, key, top, window, start, count, t)
  {
  }

  lemma GrantsStep(rs: seq<Request>, key: string)
    requires rs != []
    ensures var r, h := rs[|rs| - 1], rs[..|rs| - 1];
            forall x, y :: GrantsIn(Global, rs, key, x, y)
                        == GrantsIn(Global, h, key, x, y) + if r.key == key && Grants(After(Global, h), r) && x <= r.now < y then 1 else 0
  {
    forall x, y { LastRequest(rs, key, x, y); }
  }

  lemma CountingKeeps(rs: seq<Request>, key: string, limit: int, window: int)
    requires rs != [] && Ordered(rs) && SameSettings(rs, key, limit, window) && window > 0
    requires BucketTellsGrants(rs[..|rs| - 1], key, limit, window)
    requires rs[|rs| - 1].key == key && Running(After(Global, rs[..|rs| - 1]), key, rs[|rs| - 1].now)
    ensures BucketTellsGrants(rs, key, limit, window)
  {
    hide GrantsIn, Tells;
    var r, h := rs[|rs| - 1], rs[..|rs| - 1];
    var m := After(Global, h);
    assert r in rs && h[|h| - 1].now <= r.now;
    GrantsStep(rs, key);
    var start, count := m[key].resetAt - window, m[key].count;
    if Grants(m, r) {
      OneMoreGrant(rs, h, key, AtLeastOne(limit), window, start, count, h[|h| - 1].now, r.now);
    } else {
      NoMoreGrants(rs, h, key, AtLeastOne(limit), window, start, count, h[|h| - 1].now, r.now);
    }
  }

  lemma OtherKeyKeeps(rs: seq<Request>, key: string, limit: int, window: int)
    requires rs != [] && Ordered(rs) && rs[|rs| - 1].key != key
    requires BucketTellsGrants(rs[..|rs| - 1], key, limit, window)
    ensures BucketTellsGrants(rs, key, limit, window)
  {
    hide GrantsIn, Tells;
    var r, h := rs[|rs| - 1], rs[..|rs| - 1];
    var m := After(Global, h);
    GrantsStep(rs, key);
    if key in m {
      assert h[|h| - 1].now <= r.now;
      NoMoreGrants(rs, h, key, AtLeastOne(limit), window, m[key].resetAt - window, m[key].count, h[|h| - 1].now, r.now);
    }
  }

  lemma {:induction false} BucketsTellGrants(rs: seq<Request>, key: string, limit: int, window: int)
    requires Ordered(rs) && SameSettings(rs, key, limit, window) && window > 0
    ensures BucketTellsGrants(rs, key, limit, window)
  {
    hide GrantsIn, Tells;
    if rs == [] {
      forall x, y { EmptyHistory(key, x, y); }
    } else {
      var r, h := rs[|rs| - 1], rs[..|rs| - 1];
      BucketsTellGrants(h, key, limit, window);
      if r.key != key {
        OtherKeyKeeps(rs, key, limit, window);
      } else if Running(After(Global, h), key, r.now) {
        CountingKeeps(rs, key, limit, window);
      } else {
        OpeningKeeps(rs, key, limit, window);
      }
    }
  }

  lemma {:induction false} SameGrantsEverywhere(which: Limiter, rs: seq<Request>, key: string, from: Time, to: Time)
    requires Ordered(rs)
    ensures GrantsIn(which, rs, key, from, to) == GrantsIn(Global, rs, key, from, to)
  {
    if rs != [] {
      PruningIsInvisible(which, rs);
      SameGrantsEverywhere(which, rs[..|rs| - 1], key, from, to);
    }
  }

  /** Any half-open interval one window long holds fewer than twice the limit of grants for a key. */
  lemma LessThanTwiceTheLimit(which: Limiter, rs: seq<Request>, key: string, limit: int, window: int, from: Time)
    requires Ordered(rs) && SameSettings(rs, key, limit, window) && window > 0
    ensures GrantsIn(which, rs, key, from, from + window) <= 2 * AtLeastOne(limit) - 1
  {
    BucketsTellGrants(rs, key, limit, window);
    SameGrantsEverywhere(which, rs, key, from, from + window);
  }

  lemma RefusedWithRunningBucket(h: seq<Request>, r: Request, limit: int, window: int)
    requires Ordered(h + [r]) && SameSettings(h, r.key, limit, window) && window > 0
    requires r.limit == limit && !Grants(After(Global, h), r)
    ensures GrantsIn(Global, h, r.key, r.now - window + 1, r.now + 1) >= AtLeastOne(limit)
  {
    assert Ordered(h) by {
      assert forall i :: 0 <= i < |h| ==> (h + [r])[i] == h[i];
    }
    BucketsTellGrants(h, r.key, limit, window);
    var start, from, to := After(Global, h)[r.key].resetAt - window, r.now - window + 1, r.now + 1;
    assert h != [] && h[|h| - 1] == (h + [r])[|h| - 1] && r == (h + [r])[|h|];
    SplitInterval(h, r.key, from, start, to);
    assert GrantsIn(Global, h, r.key, start, to) == After(Global, h)[r.key].count;
  }

  /** A refusal is earned: the key already had its limit of grants less than one window ago. */
  lemma RefusedOnlyWhenSpent(which: Limiter, rs: seq<Request>, limit: int, window: int)
    requires rs != [] && Ordered(rs) && window > 0
    requires SameSettings(rs, rs[|rs| - 1].key, limit, window)
    requires !Answer(which, rs)
    ensures var r := rs[|rs| - 1]; GrantsIn(which, rs, r.key, r.now - window + 1, r.now + 1) >= AtLeastOne(limit)
  {
    hide GrantsIn;
    var r, h := rs[|rs| - 1], rs[..|rs| - 1];
    PruningIsInvisible(which, rs);
    assert r in rs;
    SameGrantsEverywhere(which, rs, r.key, r.now - window + 1, r.now + 1);
    RefusedWithRunningBucket(h, r, limit, window);
    LastRequest(rs, r.key, r.now - window + 1, r.now + 1);
  }

  /** `k` more requests for the key at one moment. */
  function Burst(h: seq<Request>, key: string, limit: int, window: int, t: Time, k: nat): seq<Request> {
    if k == 0 then h else Burst(h, key, limit, window, t, k - 1) + [Request(key, limit, window, t)]
  }

  lemma OneMoreRequest(h: seq<Request>, r: Request)
    ensures var h' := h + [r];
            && After(Global, h') == Consume(After(Global, h), r)
            && forall key, x, y :: GrantsIn(Global, h', key, x, y)
                 == GrantsIn(Global, h, key, x, y) + if r.key == key && Grants(After(Global, h), r) && x <= r.now < y then 1 else 0
  {
    var h' := h + [r];
    assert h'[..|h|] == h;
    forall key, x, y { LastRequest(h', key, x, y); }
  }

  lemma OrderedAppend(h: seq<Request>, r: Request)
    requires Ordered(h) && (h != [] ==> h[|h| - 1].now <= r.now)
    ensures Ordered(h + [r])
  {
  }

  /** A burst into a running bucket with room counts in full. */
  lemma {:induction false} BurstFits(h: seq<Request>, key: string, limit: int, window: int, t: Time, k: nat, x: Time, y: Time)
    requires Ordered(h) && h != [] && h[|h| - 1].now <= t && SameSettings(h, key, limit, window)
    requires Running(After(Global, h), key, t) && After(Global, h)[key].count + k <= limit && x <= t < y
    ensures var h' := Burst(h, key, limit, window, t, k);
            && Ordered(h') && h' != [] && h'[|h'| - 1].now <= t && SameSettings(h', key, limit, window)
            && key in After(Global, h') && After(Global, h')[key] == Bucket(After(Global, h)[key].count + k, After(Global, h)[key].resetAt)
            && GrantsIn(Global, h', key, x, y) == GrantsIn(Global, h, key, x, y) + k
  {
    hide GrantsIn, After;
    if k > 0 {
      BurstFits(h, key, limit, window, t, k - 1, x, y);
      var before, r := Burst(h, key, limit, window, t, k - 1), Request(key, limit, window, t);
      OneMoreRequest(before, r);
      OrderedAppend(before, r);
    }
  }

  /** One request into a table without a running bucket for the key opens one. */
  lemma OpensBucket(h: seq<Request>, key: string, limit: int, window: int, t: Time, x: Time, y: Time)
    requires Ordered(h) && (h != [] ==> h[|h| - 1].now <= t) && SameSettings(h, key, limit, window)
    requires !Running(After(Global, h), key, t)
    ensures var h' := h + [Request(key, limit, window, t)];
            && Ordered(h') && SameSettings(h', key, limit, window) && h' != [] && h'[|h'| - 1].now == t
            && key in After(Global, h') && After(Global, h')[key] == Bucket(1, t + window)
            && GrantsIn(Global, h', key, x, y) == GrantsIn(Global, h, key, x, y) + if x <= t < y then 1 else 0
  {
    hide GrantsIn, After;
    OneMoreRequest(h, Request(key, limit, window, t));
    OrderedAppend(h, Request(key, limit, window, t));
  }

  /**
   * The bound is reached for every limit and every window of at least two ticks: one request
   * opens a bucket, the rest of the limit comes in its last tick, and a full limit follows.
   */
  lemma BoundIsReached(key: string, limit: nat, window: nat) returns (rs: seq<Request>)
    requires limit >= 1 && window >= 2
    ensures Ordered(rs) && SameSettings(rs, key, limit, window)
    ensures GrantsIn(Global, rs, key, window - 1, window - 1 + window) == 2 * limit - 1
  {
    hide GrantsIn, After, Burst;
    var x, y := window - 1, window - 1 + window;
    EmptyHistory(key, x, y);
    OpensBucket([], key, limit, window, 0, x, y);
    var first := [] + [Request(key, limit, window, 0)];
    BurstFits(first, key, limit, window, window - 1, limit - 1, x, y);
    var full := Burst(first, key, limit, window, window - 1, limit - 1);
    OpensBucket(full, key, limit, window, window, x, y);
    var second := full + [Request(key, limit, window, window)];
    BurstFits(second, key, limit, window, window, limit - 1, x, y);
    rs := Burst(second, key, limit, window, window, limit - 1);
  }

  lemma EmptyHistory(key: string, x: Time, y: Time)
    ensures After(Global, []) == map[] && GrantsIn(Global, [], key, x, y) == 0
  {
  }

  // ---- The limiters as they run -------------------------------------------------------

  /** Deletes the expired buckets of a table one by one. */
  method Sweep(m: Buckets, now: Time) returns (r: Buckets)
    ensures r == Prune(m, now)
  {
    r := m;
    var todo := m.Keys;
    while todo != {}
      invariant todo <= m.Keys
      invariant forall k :: k in r <==> k in m && (k in todo || now < m[k].resetAt)
      invariant forall k :: k in r ==> r[k] == m[k]
      decreases todo
    {
      var k :| k in todo;
      if r[k].resetAt <= now {
        r := r - {k};
      }
      todo := todo - {k};
    }
  }

  class KeyedRateLimiter {
    const limit: int
    const windowMs: int
    var buckets: Buckets

    constructor (limit: int, windowMs: int)
      ensures this.limit == limit && this.windowMs == windowMs && buckets == map[]
    {
      this.limit, this.windowMs, buckets := limit, windowMs, map[];
    }

    method TryConsume(key: string, now: Time) returns (ok: bool)
      modifies this`buckets
      ensures ok == Grants(Before(Keyed, old(buckets), now), Request(key, limit, windowMs, now))
      ensures buckets == Step(Keyed, old(buckets), Request(key, limit, windowMs, now))
    {
      if |buckets| > PRUNE_SIZE {
        buckets := Sweep(buckets, now);
      }
      if key !in buckets || buckets[key].resetAt <= now {
        buckets := buckets[key := Bucket(1, now + windowMs)];
        return true;
      }
      if buckets[key].count >= limit {
        return false;
      }
      buckets := buckets[key := buckets[key].(count := buckets[key].count + 1)];
      return true;
    }
  }

  datatype UserOptions = UserOptions(bucket: string, limit: int, windowMs: int)

  class UserRateLimitGuard {
    var hits: Buckets

    constructor ()
      ensures hits == map[]
    {
      hits := map[];
    }

    function KeyFor(options: UserOptions, userId: string): string {
      options.bucket + ":" + userId
    }

    /** Routes without the decorator and anonymous requests pass without being counted. */
    method CanActivate(options: Option<UserOptions>, userId: string, now: Time) returns (ok: bool)
      modifies this
      ensures options.None? || userId == "" ==> ok && hits == old(hits)
      ensures options.Some? && userId != "" ==>
                var r := Request(KeyFor(options.value, userId), options.value.limit, options.value.windowMs, now);
                ok == Grants(Before(PerUser, old(hits), now), r) && hits == Step(PerUser, old(hits), r)
    {
      if options.None? || userId == "" {
        return true;
      }
      var o, key := options.value, KeyFor(options.value, userId);
      if key !in hits || hits[key].resetAt <= now {
        hits := hits[key := Bucket(1, now + o.windowMs)];
        if |hits| >= PRUNE_SIZE {
          hits := Sweep(hits, now);
        }
        return true;
      }
      if hits[key].count >= o.limit {
        return false;
      }
      hits := hits[key := hits[key].(count := hits[key].count + 1)];
      return true;
    }
  }

  class RateLimitGuard {
    var hits: Buckets

    constructor ()
      ensures hits == map[]
    {
      hits := map[];
    }

    method CanActivate(key: string, limit: int, ttlMs: int, now: Time) returns (ok: bool)
      modifies this
      ensures ok == Grants(Before(Global, old(hits), now), Request(key, limit, ttlMs, now))
      ensures hits == Step(Global, old(hits), Request(key, limit, ttlMs, now))
    {
      if key !in hits || hits[key].resetAt <= now {
        hits := hits[key := Bucket(1, now + ttlMs)];
        return true;
      }
      if hits[key].count >= limit {
        return false;
      }
      hits := hits[key := hits[key].(count := hits[key].count + 1)];
      return true;
    }
  }
}
