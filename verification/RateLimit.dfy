/** The token-bucket limiter of internal/ratelimit/ratelimit.go. Tokens and times (in seconds) are reals. */
module RateLimit {
  datatype Bucket = Bucket(tokens: real, last: real)

  datatype Rates = Rates(rate: real, burst: real)

  type Buckets<K> = map<K, Bucket>

  /** What a stretch of time adds. */
  function Gain(r: Rates, dt: real): real {
    r.rate * dt
  }

  function Min(a: real, b: real): real {
    if a < b then a else b
  }

  function Refill(r: Rates, b: Bucket, now: real): Bucket {
    if now > b.last then Bucket(Min(r.burst, b.tokens + Gain(r, now - b.last)), now) else b
  }

  function BucketAt<K>(r: Rates, bs: Buckets<K>, key: K, now: real): Bucket {
    Refill(r, if key in bs then bs[key] else Bucket(r.burst, now), now)
  }

  function Allow<K>(r: Rates, bs: Buckets<K>, key: K, now: real): (Buckets<K>, bool) {
    var b := BucketAt(r, bs, key, now);
    if b.tokens >= 1.0 then (bs[key := b.(tokens := b.tokens - 1.0)], true) else (bs[key := b], false)
  }

  function Cleanup<K>(bs: Buckets<K>, idle: real, now: real): Buckets<K> {
    map key | key in bs && !(bs[key].last < now - idle) :: bs[key]
  }

  class Limiter<K(==)> {
    const rates: Rates
    var buckets: Buckets<K>

    constructor (rate: real, burst: real)
      ensures rates == Rates(rate, burst) && buckets == map[]
    {
      rates, buckets := Rates(rate, burst), map[];
    }

    method AllowKey(key: K, now: real) returns (ok: bool)
      modifies this
      ensures (buckets, ok) == Allow(rates, old(buckets), key, now)
    {
      if key !in buckets {
        buckets := buckets[key := Bucket(rates.burst, now)];
      }
      var b := buckets[key];
      var elapsed := now - b.last;
      if elapsed > 0.0 {
        b := b.(tokens := b.tokens + Gain(rates, elapsed));
        if b.tokens > rates.burst {
          b := b.(tokens := rates.burst);
        }
        b := b.(last := now);
      }
      assert b == BucketAt(rates, old(buckets), key, now);
      ok := b.tokens >= 1.0;
      if ok {
        b := b.(tokens := b.tokens - 1.0);
      }
      buckets := buckets[key := b];
      assert buckets == old(buckets)[key := b];
    }

    method DropIdle(idle: real, now: real)
      modifies this
      ensures buckets == Cleanup(old(buckets), idle, now)
    {
      var cutoff := now - idle;
      var left := buckets.Keys;
      while left != {}
        invariant left <= old(buckets).Keys
        invariant buckets == map key | key in old(buckets) && (key in left || !(old(buckets)[key].last < cutoff))
                               :: old(buckets)[key]
        decreases left
      {
        var key :| key in left;
        if buckets[key].last < cutoff {
          buckets := buckets - {key};
        }
        left := left - {key};
      }
    }
  }

  // ---- Runs ----

  datatype Event<K> = Call(key: K, time: real) | Janitor(time: real)

  /**
   * The clock is read before the lock is taken, so readings are processed out of order; none is more than d behind
   * the latest one processed before it.
   */
  ghost predicate Lag<K>(es: seq<Event<K>>, d: real) {
    forall i, j :: 0 <= i < j < |es| ==> es[i].time - d <= es[j].time
  }

  /** Nothing processed so far is more than d ahead of t. */
  ghost predicate Behind<K>(es: seq<Event<K>>, d: real, t: real) {
    forall i :: 0 <= i < |es| ==> es[i].time - d <= t
  }

  /** A bucket that has been idle is full again, even for a reading d behind. */
  ghost predicate Usable(r: Rates, idle: real, d: real) {
    r.rate >= 0.0 && r.burst >= 0.0 && 0.0 <= d <= idle && Gain(r, idle - d) >= r.burst
  }

  /** The state after a run; `clean` is whether the janitor does anything. */
  ghost function Run<K>(r: Rates, idle: real, clean: bool, es: seq<Event<K>>): Buckets<K> {
    if es == [] then map[] else
    var bs := Run(r, idle, clean, es[..|es| - 1]);
    match es[|es| - 1]
    case Call(key, time) => Allow(r, bs, key, time).0
    case Janitor(time) => if clean then Cleanup(bs, idle, time) else bs
  }

  /** The answer of the call at position k. */
  ghost predicate Allowed<K>(r: Rates, idle: real, clean: bool, es: seq<Event<K>>, k: nat)
    requires k < |es| && es[k].Call?
  {
    Allow(r, Run(r, idle, clean, es[..k]), es[k].key, es[k].time).1
  }

  /** How many calls for the key with readings from t1 to t2 were allowed. */
  ghost function Count<K>(r: Rates, idle: real, clean: bool, es: seq<Event<K>>, key: K, t1: real, t2: real): nat {
    if es == [] then 0 else
    var last := es[|es| - 1];
    Count(r, idle, clean, es[..|es| - 1], key, t1, t2)
    + if last.Call? && last.key == key && t1 <= last.time <= t2 && Allowed(r, idle, clean, es, |es| - 1) then 1 else 0
  }

  // ---- Arithmetic ----

  lemma GainAdds(r: Rates, a: real, b: real)
    ensures Gain(r, a + b) == Gain(r, a) + Gain(r, b)
    ensures r.rate >= 0.0 && a >= 0.0 ==> Gain(r, a) >= 0.0
    ensures Gain(r, 0.0) == 0.0
  {
  }

  /** What a key could spend at time t. */
  ghost function Credit<K>(r: Rates, bs: Buckets<K>, key: K, t: real): real {
    BucketAt(r, bs, key, t).tokens
  }

  ghost predicate Filled<K>(r: Rates, bs: Buckets<K>) {
    forall key <- bs :: 0.0 <= bs[key].tokens <= r.burst
  }

  ghost predicate LastBy<K>(bs: Buckets<K>, t: real) {
    forall key <- bs :: bs[key].last <= t
  }

  lemma CreditRange<K>(r: Rates, bs: Buckets<K>, key: K, t: real)
    requires r.rate >= 0.0 && r.burst >= 0.0 && Filled(r, bs)
    ensures 0.0 <= Credit(r, bs, key, t) <= r.burst
  {
    if key in bs {
      GainAdds(r, t - bs[key].last, 0.0);
    }
  }

  /** An allowed call costs its key one token, a refused one nothing; other keys are untouched. */
  lemma AllowSpends<K>(r: Rates, bs: Buckets<K>, key: K, now: real, other: K)
    requires r.rate >= 0.0 && r.burst >= 0.0 && Filled(r, bs)
    ensures var (bs', ok) := Allow(r, bs, key, now);
      && Filled(r, bs')
      && (ok <==> Credit(r, bs, key, now) >= 1.0)
      && Credit(r, bs', other, now) == Credit(r, bs, other, now) - if ok && other == key then 1.0 else 0.0
  {
    CreditRange(r, bs, key, now);
  }

  lemma {:induction false} RunFilled<K>(r: Rates, idle: real, clean: bool, es: seq<Event<K>>)
    requires r.rate >= 0.0 && r.burst >= 0.0
    ensures Filled(r, Run(r, idle, clean, es))
  {
    if es != [] {
      hide Allow;
      var n := |es| - 1;
      RunFilled(r, idle, clean, es[..n]);
      if es[n].Call? {
        AllowSpends(r, Run(r, idle, clean, es[..n]), es[n].key, es[n].time, es[n].key);
      }
    }
  }

  /** Buckets carry readings that have been processed. */
  lemma {:induction false} RunLast<K>(r: Rates, idle: real, clean: bool, es: seq<Event<K>>, t: real)
    requires Behind(es, 0.0, t)
    ensures LastBy(Run(r, idle, clean, es), t)
  {
    if es != [] {
      var n := |es| - 1;
      RunLast(r, idle, clean, es[..n], t);
      assert es[n].time - 0.0 <= t;
    }
  }

  lemma GainIs(r: Rates, dt: real)
    ensures Gain(r, dt) == r.rate * dt
  {
  }

  // ---- The bound ----

  /** After a call its bucket holds what it held, what time has added and at most the burst, less what was spent. */
  lemma CallBucket<K>(r: Rates, bs: Buckets<K>, key: K, now: real)
    requires r.rate >= 0.0 && r.burst >= 0.0 && Filled(r, bs)
    ensures var (bs', ok) := Allow(r, bs, key, now);
      && key in bs' && bs'[key].last >= now && (key in bs ==> bs'[key].last >= bs[key].last)
      && 0.0 <= bs'[key].tokens <= r.burst - (if ok then 1.0 else 0.0)
      && (key in bs ==> bs'[key].tokens + (if ok then 1.0 else 0.0)
                        <= bs[key].tokens + Gain(r, bs'[key].last - bs[key].last))
  {
    if key in bs {
      GainAdds(r, now - bs[key].last, 0.0);
    }
  }

  /** Calls allowed since t1 and the tokens left are paid for by one burst and by the time up to the last refill. */
  ghost predicate Paid<K>(r: Rates, bs: Buckets<K>, key: K, t1: real, count: nat) {
    count > 0 ==>
      key in bs && bs[key].last >= t1 && count as real + bs[key].tokens <= r.burst + Gain(r, bs[key].last - t1)
  }

  lemma PaidCall<K>(r: Rates, bs: Buckets<K>, key: K, now: real, t1: real, count: nat)
    requires r.rate >= 0.0 && r.burst >= 0.0 && Filled(r, bs) && Paid(r, bs, key, t1, count)
    ensures Paid(r, Allow(r, bs, key, now).0, key, t1, count)
    ensures t1 <= now && Allow(r, bs, key, now).1 ==> Paid(r, Allow(r, bs, key, now).0, key, t1, count + 1)
  {
    CallBucket(r, bs, key, now);
    var b := Allow(r, bs, key, now).0[key];
    hide Allow, Gain;
    GainAdds(r, b.last - t1, 0.0);
    if count > 0 {
      GainAdds(r, bs[key].last - t1, b.last - bs[key].last);
      assert bs[key].last - t1 + (b.last - bs[key].last) == b.last - t1;
    }
  }

  lemma PaidOtherCall<K>(r: Rates, bs: Buckets<K>, key: K, other: K, now: real, t1: real, count: nat)
    requires Paid(r, bs, key, t1, count) && other != key
    ensures Paid(r, Allow(r, bs, other, now).0, key, t1, count)
  {
  }

  /** What is paid for by time t2 + d is within the bound. */
  lemma PaidIsBounded<K>(r: Rates, bs: Buckets<K>, key: K, t1: real, t: real, count: nat)
    requires r.rate >= 0.0 && r.burst >= 0.0 && Filled(r, bs) && LastBy(bs, t)
    requires Paid(r, bs, key, t1, count) && t1 <= t
    ensures count as real <= r.burst + Gain(r, t - t1)
  {
    GainAdds(r, t - t1, 0.0);
    if count > 0 {
      var last := bs[key].last;
      GainAdds(r, last - t1, t - last);
      GainAdds(r, t - last, 0.0);
      assert last - t1 + (t - last) == t - t1;
      hide Gain;
      assert Gain(r, last - t1) <= Gain(r, t - t1);
    }
  }

  /** Without the janitor. */
  lemma {:induction false} BoundWithoutJanitor<K>(r: Rates, idle: real, d: real, es: seq<Event<K>>, key: K, t1: real,
                                                  t2: real)
    requires r.rate >= 0.0 && r.burst >= 0.0 && d >= 0.0 && Lag(es, d) && t1 <= t2
    ensures Paid(r, Run(r, idle, false, es), key, t1, Count(r, idle, false, es, key, t1, t2))
    ensures Count(r, idle, false, es, key, t1, t2) as real <= r.burst + Gain(r, t2 + d - t1)
  {
    hide Allow, Gain, Paid, Filled, LastBy;
    if es == [] {
      GainAdds(r, t2 + d - t1, 0.0);
      PaidNothing(r, Run(r, idle, false, es), key, t1);
    } else {
      var n := |es| - 1;
      var bs, count := Run(r, idle, false, es[..n]), Count(r, idle, false, es[..n], key, t1, t2);
      BoundWithoutJanitor(r, idle, d, es[..n], key, t1, t2);
      RunFilled(r, idle, false, es[..n]);
      if es[n].Call? && es[n].key == key {
        PaidCall(r, bs, key, es[n].time, t1, count);
        if Count(r, idle, false, es, key, t1, t2) > count {
          RunFilled(r, idle, false, es);
          RunLast(r, idle, false, es, t2 + d);
          PaidIsBounded(r, Run(r, idle, false, es), key, t1, t2 + d, count + 1);
        }
      } else if es[n].Call? {
        PaidOtherCall(r, bs, key, es[n].key, es[n].time, t1, count);
      }
    }
  }

  lemma PaidNothing<K>(r: Rates, bs: Buckets<K>, key: K, t1: real)
    ensures Paid(r, bs, key, t1, 0)
  {
  }

  /**
   * In every interval a key is allowed at most burst + rate * (t2 - t1 + d) calls, the janitor running; with d == 0,
   * when calls are processed in the order of their readings, at most burst + rate * (t2 - t1).
   */
  lemma IntervalBound<K>(r: Rates, idle: real, d: real, es: seq<Event<K>>, key: K, t1: real, t2: real)
    requires Usable(r, idle, d) && Lag(es, d) && t1 <= t2
    ensures Count(r, idle, true, es, key, t1, t2) as real <= r.burst + r.rate * (t2 - t1 + d)
  {
    hide Count, Paid;
    BoundWithoutJanitor(r, idle, d, es, key, t1, t2);
    SameCount(r, idle, d, es, key, t1, t2);
    assert t2 + d - t1 == t2 - t1 + d;
  }

  lemma {:induction false} SameCount<K>(r: Rates, idle: real, d: real, es: seq<Event<K>>, key: K, t1: real, t2: real)
    requires Usable(r, idle, d) && Lag(es, d)
    ensures Count(r, idle, true, es, key, t1, t2) == Count(r, idle, false, es, key, t1, t2)
  {
    if es != [] {
      hide Allowed;
      SameCount(r, idle, d, es[..|es| - 1], key, t1, t2);
      if es[|es| - 1].Call? {
        JanitorInvisible(r, idle, d, es, |es| - 1);
      }
    }
  }

  /**
   * Without d the bound fails: a later reading pays for a call that comes in after it with an earlier one. Here three
   * calls read as time 0 are allowed with a burst of 2.
   */
  lemma StaleReadingExceeds<K>(key: K)
    ensures var r, es := Rates(1.0, 2.0), [Call(key, 0.0), Call(key, 0.0), Call(key, 2.0), Call(key, 0.0)];
      Usable(r, 2.0, 0.0) && Count(r, 2.0, true, es, key, 0.0, 0.0) == 3
  {
    var r, c := Rates(1.0, 2.0), Call(key, 0.0);
    GainIs(r, 2.0);
    hide Run, Allow, Count;
    NoCalls(r, key);
    FreshCall(r, key);
    OneCall(r, [], key, 0.0, map[], map[key := Bucket(1.0, 0.0)]);
    assert [] + [c] == [c];
    SpendOne(r, key, 1.0, 0.0, 0.0);
    OneCall(r, [c], key, 0.0, map[key := Bucket(1.0, 0.0)], map[key := Bucket(0.0, 0.0)]);
    assert [c] + [c] == [c, c];
    SpendOne(r, key, 0.0, 0.0, 2.0);
    OneCall(r, [c, c], key, 2.0, map[key := Bucket(0.0, 0.0)], map[key := Bucket(1.0, 2.0)]);
    assert [c, c] + [Call(key, 2.0)] == [c, c, Call(key, 2.0)];
    SpendOne(r, key, 1.0, 2.0, 0.0);
    OneCall(r, [c, c, Call(key, 2.0)], key, 0.0, map[key := Bucket(1.0, 2.0)], map[key := Bucket(0.0, 2.0)]);
    assert [c, c, Call(key, 2.0)] + [c] == [c, c, Call(key, 2.0), c];
  }

  lemma NoCalls<K>(r: Rates, key: K)
    ensures Run<K>(r, 2.0, true, []) == map[] && Count(r, 2.0, true, [], key, 0.0, 0.0) == 0
  {
  }

  lemma FreshCall<K>(r: Rates, key: K)
    requires r == Rates(1.0, 2.0)
    ensures Allow(r, map[], key, 0.0) == (map[key := Bucket(1.0, 0.0)], true)
  {
  }

  /** A call that finds a token, with its bucket as it was or refilled over two seconds. */
  lemma SpendOne<K>(r: Rates, key: K, tokens: real, last: real, now: real)
    requires r == Rates(1.0, 2.0)
    requires (tokens == 1.0 && now <= last) || (tokens == 0.0 && last == 0.0 && now == 2.0)
    ensures Allow(r, map[key := Bucket(tokens, last)], key, now)
            == if tokens == 1.0 then (map[key := Bucket(0.0, last)], true) else (map[key := Bucket(1.0, 2.0)], true)
  {
    var bs := map[key := Bucket(tokens, last)];
    var after := if tokens == 1.0 then Bucket(0.0, last) else Bucket(1.0, 2.0);
    assert bs[key := after] == map[key := after];
    if tokens == 0.0 {
      assert now - last == 2.0 && BucketAt(r, bs, key, now) == Bucket(2.0, 2.0);
    }
  }

  lemma OneCall<K>(r: Rates, es: seq<Event<K>>, key: K, now: real, bs: Buckets<K>, bs': Buckets<K>)
    requires Run(r, 2.0, true, es) == bs && Allow(r, bs, key, now) == (bs', true)
    ensures Run(r, 2.0, true, es + [Call(key, now)]) == bs'
    ensures Count(r, 2.0, true, es + [Call(key, now)], key, 0.0, 0.0)
            == Count(r, 2.0, true, es, key, 0.0, 0.0) + if now == 0.0 then 1 else 0
  {
    hide Allow;
    assert (es + [Call(key, now)])[..|es|] == es;
  }

  // ---- The janitor is invisible ----

  /** The same bucket, or none here and there one that is full for every reading from t on. */
  ghost predicate Similar<K>(r: Rates, bs: Buckets<K>, all: Buckets<K>, t: real) {
    && bs.Keys <= all.Keys
    && forall key <- all :: if key in bs then bs[key] == all[key]
                            else all[key].last < t && all[key].tokens + Gain(r, t - all[key].last) >= r.burst
  }

  lemma StaySimilar<K>(r: Rates, bs: Buckets<K>, all: Buckets<K>, t: real, later: real)
    requires r.rate >= 0.0 && Similar(r, bs, all, t) && t <= later
    ensures Similar(r, bs, all, later)
  {
    forall key <- all | key !in bs ensures all[key].tokens + Gain(r, later - all[key].last) >= r.burst {
      GainAdds(r, t - all[key].last, later - t);
      GainAdds(r, later - t, 0.0);
      assert t - all[key].last + (later - t) == later - all[key].last;
    }
  }

  lemma SameAnswer<K>(r: Rates, bs: Buckets<K>, all: Buckets<K>, key: K, now: real)
    requires Similar(r, bs, all, now)
    ensures Allow(r, bs, key, now).1 == Allow(r, all, key, now).1
    ensures key in Allow(r, bs, key, now).0
    ensures Allow(r, all, key, now).0 == all[key := Allow(r, bs, key, now).0[key]]
    ensures Allow(r, bs, key, now).0 == bs[key := Allow(r, bs, key, now).0[key]]
  {
    assert BucketAt(r, bs, key, now) == BucketAt(r, all, key, now);
  }

  /** A call keeps the two alike for all readings from t on, if it is one of them. */
  lemma SimilarCall<K>(r: Rates, bs: Buckets<K>, all: Buckets<K>, key: K, now: real, t: real)
    requires r.rate >= 0.0 && Similar(r, bs, all, t) && t <= now
    ensures Similar(r, Allow(r, bs, key, now).0, Allow(r, all, key, now).0, t)
  {
    hide Allow, Gain;
    StaySimilar(r, bs, all, t, now);
    SameAnswer(r, bs, all, key, now);
  }

  /** The janitor drops only buckets that are full for every reading at most d behind its own. */
  lemma SimilarCleanup<K>(r: Rates, idle: real, d: real, bs: Buckets<K>, all: Buckets<K>, now: real, t: real)
    requires Usable(r, idle, d) && Similar(r, bs, all, t) && now - d <= t && Filled(r, bs)
    ensures Similar(r, Cleanup(bs, idle, now), all, t)
  {
    hide Gain;
    forall key <- bs | bs[key].last < now - idle
      ensures bs[key].last < t && bs[key].tokens + Gain(r, t - bs[key].last) >= r.burst
    {
      var more := t - bs[key].last - (idle - d);
      GainAdds(r, idle - d, more);
      GainAdds(r, more, 0.0);
      assert idle - d + more == t - bs[key].last;
    }
  }

  lemma {:induction false} RunsSimilar<K>(r: Rates, idle: real, d: real, es: seq<Event<K>>, t: real)
    requires Usable(r, idle, d) && Lag(es, d) && Behind(es, d, t)
    ensures Similar(r, Run(r, idle, true, es), Run(r, idle, false, es), t)
  {
    if es != [] {
      hide Allow, Gain, Similar, Filled, Cleanup;
      var n := |es| - 1;
      var now := es[n].time;
      var bs, all := Run(r, idle, true, es[..n]), Run(r, idle, false, es[..n]);
      var low := Min(now, t);
      RunsSimilar(r, idle, d, es[..n], low);
      if es[n].Call? {
        SimilarCall(r, bs, all, es[n].key, now, low);
        StaySimilar(r, Run(r, idle, true, es), Run(r, idle, false, es), low, t);
      } else {
        RunFilled(r, idle, true, es[..n]);
        StaySimilar(r, bs, all, low, t);
        SimilarCleanup(r, idle, d, bs, all, now, t);
      }
    } else {
      NoBuckets<K>(r, t);
    }
  }

  lemma NoBuckets<K>(r: Rates, t: real)
    ensures Similar<K>(r, map[], map[], t)
  {
  }

  /** Whenever a full refill takes no longer than the idle time less d, the janitor changes no answer of any run. */
  lemma JanitorInvisible<K>(r: Rates, idle: real, d: real, es: seq<Event<K>>, k: nat)
    requires Usable(r, idle, d) && Lag(es, d) && k < |es| && es[k].Call?
    ensures Allowed(r, idle, true, es, k) == Allowed(r, idle, false, es, k)
  {
    hide Allow, Similar;
    RunsSimilar(r, idle, d, es[..k], es[k].time);
    SameAnswer(r, Run(r, idle, true, es[..k]), Run(r, idle, false, es[..k]), es[k].key, es[k].time);
  }

  // ---- And only then ----

  /** The janitor changes no answer of any run whose readings are at most d behind. */
  ghost predicate Invisible<K(!new)>(r: Rates, idle: real, d: real) {
    forall es: seq<Event<K>>, k: nat :: Lag(es, d) && k < |es| && es[k].Call? ==>
      (Allowed(r, idle, true, es, k) <==> Allowed(r, idle, false, es, k))
  }

  /** Credit after a wait, exactly. */
  lemma CreditExact<K>(r: Rates, bs: Buckets<K>, key: K, t: real, t': real)
    requires r.rate >= 0.0 && r.burst >= 0.0 && Filled(r, bs) && LastBy(bs, t) && t <= t'
    ensures Credit(r, bs, key, t') == Min(r.burst, Credit(r, bs, key, t) + Gain(r, t' - t))
  {
    GainAdds(r, t' - t, 0.0);
    if key in bs {
      var b := bs[key];
      GainAdds(r, t - b.last, t' - t);
      GainAdds(r, t - b.last, 0.0);
      assert t - b.last + (t' - t) == t' - b.last;
      if t == t' {
        assert t' - t == 0.0;
      }
    }
  }

  /** A run that can go on at time t, with every bucket last refilled by then. */
  ghost predicate Ready<K>(r: Rates, idle: real, d: real, es: seq<Event<K>>, t: real) {
    && Lag(es, d) && Behind(es, d, t)
    && LastBy(Run(r, idle, true, es), t) && LastBy(Run(r, idle, false, es), t)
  }

  lemma ReadyLater<K>(r: Rates, idle: real, d: real, es: seq<Event<K>>, t: real, later: real)
    requires Ready(r, idle, d, es, t) && t <= later
    ensures Ready(r, idle, d, es, later)
  {
  }

  lemma LagAppend<K>(es: seq<Event<K>>, d: real, e: Event<K>, t: real)
    requires Lag(es, d) && Behind(es, d, e.time) && Behind(es, d, t) && e.time - d <= t
    ensures Lag(es + [e], d) && Behind(es + [e], d, t)
  {
  }

  lemma LastByCall<K>(r: Rates, bs: Buckets<K>, key: K, t: real)
    requires LastBy(bs, t)
    ensures LastBy(Allow(r, bs, key, t).0, t)
  {
  }

  /** One more call, with the janitor or without: it is allowed when there is credit, and costs one. */
  lemma OneMoreCall<K>(r: Rates, idle: real, d: real, es: seq<Event<K>>, key: K, t: real, clean: bool)
    requires r.rate >= 0.0 && r.burst >= 0.0 && d >= 0.0 && Ready(r, idle, d, es, t)
    ensures var es', x := es + [Call(key, t)], Credit(r, Run(r, idle, clean, es), key, t);
      && Ready(r, idle, d, es', t) && es'[|es|].Call? && 0.0 <= x <= r.burst
      && Run(r, idle, clean, es') == Allow(r, Run(r, idle, clean, es), key, t).0
      && (Allowed(r, idle, clean, es', |es|) <==> x >= 1.0)
      && Credit(r, Run(r, idle, clean, es'), key, t) == if x >= 1.0 then x - 1.0 else x
  {
    var es' := es + [Call(key, t)];
    assert es'[..|es|] == es;
    RunFilled(r, idle, clean, es);
    LagAppend(es, d, Call(key, t), t);
    LastByCall(r, Run(r, idle, true, es), key, t);
    LastByCall(r, Run(r, idle, false, es), key, t);
    hide Allow, Credit, Lag, Behind, LastBy, Filled;
    AllowSpends(r, Run(r, idle, clean, es), key, t, key);
    CreditRange(r, Run(r, idle, clean, es), key, t);
  }

  /** Different credit for a key shows in some later answer. */
  lemma DifferenceShows<K>(r: Rates, idle: real, d: real, es: seq<Event<K>>, key: K, t: real, x: real, y: real)
    returns (es': seq<Event<K>>, k: nat)
    requires r.rate >= 0.0 && r.burst >= 1.0 && d >= 0.0 && Ready(r, idle, d, es, t)
    requires x == Credit(r, Run(r, idle, false, es), key, t) < y == Credit(r, Run(r, idle, true, es), key, t)
    requires 0.0 <= x && (r.rate > 0.0 || x < 1.0 <= y)
    ensures Lag(es', d) && k < |es'| && es'[k].Call?
    ensures Allowed(r, idle, true, es', k) && !Allowed(r, idle, false, es', k)
    decreases x.Floor
  {
    hide Allow, Credit, Run, Allowed, Gain;
    OneMoreCall(r, idle, d, es, key, t, true);
    OneMoreCall(r, idle, d, es, key, t, false);
    if x >= 1.0 {
      es', k := DifferenceShows(r, idle, d, es + [Call(key, t)], key, t, x - 1.0, y - 1.0);
    } else if y >= 1.0 {
      es', k := es + [Call(key, t)], |es|;
    } else {
      var w := TimeFor(r, 1.0 - y);
      RunFilled(r, idle, true, es);
      RunFilled(r, idle, false, es);
      CreditExact(r, Run(r, idle, true, es), key, t, t + w);
      CreditExact(r, Run(r, idle, false, es), key, t, t + w);
      assert t + w - t == w;
      ReadyLater(r, idle, d, es, t, t + w);
      OneMoreCall(r, idle, d, es, key, t + w, true);
      OneMoreCall(r, idle, d, es, key, t + w, false);
      es', k := es + [Call(key, t + w)], |es|;
    }
  }

  ghost predicate CallsOnly<K>(es: seq<Event<K>>) {
    forall i :: 0 <= i < |es| ==> es[i].Call?
  }

  lemma {:induction false} CallsAlike<K>(r: Rates, idle: real, es: seq<Event<K>>)
    requires CallsOnly(es)
    ensures Run(r, idle, true, es) == Run(r, idle, false, es)
  {
    if es != [] {
      CallsAlike(r, idle, es[..|es| - 1]);
    }
  }

  /** Calls at one moment until less than one token is left. */
  lemma Drain<K>(r: Rates, idle: real, d: real, es: seq<Event<K>>, key: K, t: real, x: real)
    returns (es': seq<Event<K>>)
    requires r.rate >= 0.0 && r.burst >= 0.0 && d >= 0.0 && Ready(r, idle, d, es, t) && CallsOnly(es)
    requires 1.0 <= x == Credit(r, Run(r, idle, false, es), key, t)
    ensures Ready(r, idle, d, es', t) && CallsOnly(es') && es' != [] && es'[|es'| - 1] == Call(key, t)
    ensures 0.0 <= Credit(r, Run(r, idle, false, es'), key, t) < 1.0
    decreases x.Floor
  {
    hide Allow, Credit, Run, Allowed;
    OneMoreCall(r, idle, d, es, key, t, false);
    es' := es + [Call(key, t)];
    if x - 1.0 >= 1.0 {
      es' := Drain(r, idle, d, es', key, t, x - 1.0);
    }
  }

  /** A key is spent at some moment: of all its tokens when time brings new ones, of all whole ones otherwise. */
  lemma Spent<K>(r: Rates, idle: real, d: real, key: K) returns (es: seq<Event<K>>, t: real)
    requires r.rate >= 0.0 && r.burst >= 1.0 && d >= 0.0
    ensures Ready(r, idle, d, es, t) && CallsOnly(es) && es != [] && es[|es| - 1] == Call(key, t)
    ensures var x := Credit(r, Run(r, idle, false, es), key, t);
      0.0 <= x < 1.0 && (r.rate > 0.0 ==> x == 0.0)
  {
    assert Credit(r, Run(r, idle, false, []), key, 0.0) == r.burst;
    hide Allow, Credit, Run, Allowed, Gain;
    es := Drain(r, idle, d, [], key, 0.0, r.burst);
    t := 0.0;
    if r.rate > 0.0 {
      var x := Credit(r, Run(r, idle, false, es), key, t);
      t := TimeFor(r, 1.0 - x);
      RunFilled(r, idle, false, es);
      CreditExact(r, Run(r, idle, false, es), key, 0.0, t);
      assert t - 0.0 == t;
      ReadyLater(r, idle, d, es, 0.0, t);
      OneMoreCall(r, idle, d, es, key, t, false);
      es := es + [Call(key, t)];
    }
  }

  /** After its call a key's bucket carries the time of the call. */
  lemma JustCalled<K>(r: Rates, idle: real, es: seq<Event<K>>, key: K, t: real)
    requires es != [] && es[|es| - 1] == Call(key, t) && LastBy(Run(r, idle, true, es), t)
    ensures var bs := Run(r, idle, true, es); key in bs && bs[key].last == t
  {
    assert key in Run(r, idle, true, es) && Run(r, idle, true, es)[key].last >= t;
  }

  /** A janitor comes too early for a spent key: for a reading behind its own the credit jumps to the burst. */
  lemma EarlyJanitor<K>(r: Rates, idle: real, d: real, es: seq<Event<K>>, key: K, t: real, now: real, back: real)
    requires r.rate >= 0.0 && r.burst >= 0.0 && Ready(r, idle, d, es, t) && CallsOnly(es)
    requires es != [] && es[|es| - 1] == Call(key, t)
    requires 0.0 <= back <= idle && back <= d && t + idle < now
    ensures var es' := es + [Janitor(now)];
      && Ready(r, idle, d, es', now - back)
      && Credit(r, Run(r, idle, true, es'), key, now - back) == r.burst
      && Credit(r, Run(r, idle, false, es'), key, now - back)
         == Min(r.burst, Credit(r, Run(r, idle, false, es), key, t) + Gain(r, now - back - t))
  {
    var es' := es + [Janitor(now)];
    assert es'[..|es|] == es;
    JustCalled(r, idle, es, key, t);
    RunFilled(r, idle, false, es);
    CreditExact(r, Run(r, idle, false, es), key, t, now - back);
    LagAppend(es, d, Janitor(now), now - back);
    assert key !in Run(r, idle, true, es');
  }

  /** Some time after `wait` in which less than `room` comes in. */
  lemma Later(r: Rates, wait: real, room: real) returns (w: real)
    requires r.rate >= 0.0 && Gain(r, wait) < room
    ensures wait < w && Gain(r, w) < room
  {
    if r.rate > 0.0 {
      hide Gain;
      var most := TimeFor(r, room);
      if wait >= most {
        GainOrder(r, most, wait);
      }
      w := (wait + most) / 2.0;
      GainOrder(r, w, most);
    } else {
      w := wait + 1.0;
    }
  }

  /** With a shorter idle time the janitor shows, for every burst that allows anything at all. */
  lemma JanitorVisible<K>(r: Rates, idle: real, d: real, key: K) returns (es: seq<Event<K>>, k: nat)
    requires r.rate >= 0.0 && idle >= 0.0 && d >= 0.0 && r.burst >= 1.0 && Gain(r, idle - d) < r.burst
    ensures Lag(es, d) && k < |es| && es[k].Call?
    ensures Allowed(r, idle, true, es, k) && !Allowed(r, idle, false, es, k)
  {
    hide Allow, Credit, Run, Allowed, Gain, Ready, CallsOnly, Lag, Min;
    var back, w := EarlyMoment(r, idle, d);
    var start, t := Spent<K>(r, idle, d, key);
    var x := Credit(r, Run(r, idle, false, start), key, t);
    var now := t + w + back;
    EarlyJanitor(r, idle, d, start, key, t, now, back);
    assert now - back - t == w;
    var y := Min(r.burst, x + Gain(r, w));
    LessThanBurst(r, x, Gain(r, w));
    es, k := DifferenceShows(r, idle, d, start + [Janitor(now)], key, now - back, y, r.burst);
  }

  lemma LessThanBurst(r: Rates, x: real, gain: real)
    requires 0.0 <= x < 1.0 <= r.burst && 0.0 <= gain < r.burst && (x == 0.0 || gain == 0.0)
    ensures 0.0 <= Min(r.burst, x + gain) < r.burst && (gain == 0.0 ==> Min(r.burst, x + gain) < 1.0)
  {
  }

  /** How far behind the janitor a later call may be, and how long after the last one it then comes. */
  lemma EarlyMoment(r: Rates, idle: real, d: real) returns (back: real, w: real)
    requires r.rate >= 0.0 && idle >= 0.0 && d >= 0.0 && r.burst >= 1.0 && Gain(r, idle - d) < r.burst
    ensures 0.0 <= back <= idle && back <= d && idle - back < w && 0.0 <= Gain(r, w) < r.burst
    ensures r.rate == 0.0 ==> Gain(r, w) == 0.0
  {
    if d > idle {
      back := idle;
      GainAdds(r, 0.0, 0.0);
      assert idle - back == 0.0;
    } else {
      back := d;
    }
    w := Later(r, idle - back, r.burst);
    GainAdds(r, w, 0.0);
  }

  /** A burst below one token never allows a call. */
  lemma NothingAllowed<K>(r: Rates, idle: real, clean: bool, es: seq<Event<K>>, k: nat)
    requires r.rate >= 0.0 && 0.0 <= r.burst < 1.0 && k < |es| && es[k].Call?
    ensures !Allowed(r, idle, clean, es, k)
  {
    RunFilled(r, idle, clean, es[..k]);
    AllowSpends(r, Run(r, idle, clean, es[..k]), es[k].key, es[k].time, es[k].key);
    CreditRange(r, Run(r, idle, clean, es[..k]), es[k].key, es[k].time);
  }

  /** Only a positive wait brings a positive gain. */
  lemma PositiveGain(r: Rates, dt: real)
    requires r.rate >= 0.0 && Gain(r, dt) > 0.0
    ensures dt > 0.0
  {
    if dt <= 0.0 {
      GainAdds(r, -dt, dt);
      GainAdds(r, -dt, 0.0);
      assert -dt + dt == 0.0;
    }
  }

  /**
   * The janitor changes no answer, of any run whose readings are at most d behind, exactly when a bucket is full again
   * within the idle time less d, or nothing is ever allowed.
   */
  lemma JanitorInvisibleExactly<K(!new)>(r: Rates, idle: real, d: real, key: K)
    requires r.rate >= 0.0 && r.burst >= 0.0 && idle >= 0.0 && d >= 0.0
    ensures Invisible<K>(r, idle, d) <==> Gain(r, idle - d) >= r.burst || r.burst < 1.0
  {
    hide Allowed, Gain, Lag;
    if r.burst < 1.0 {
      forall es: seq<Event<K>>, k: nat | Lag(es, d) && k < |es| && es[k].Call?
        ensures Allowed(r, idle, true, es, k) <==> Allowed(r, idle, false, es, k)
      {
        NothingAllowed(r, idle, true, es, k);
        NothingAllowed(r, idle, false, es, k);
      }
    } else if Gain(r, idle - d) >= r.burst {
      PositiveGain(r, idle - d);
      forall es: seq<Event<K>>, k: nat | Lag(es, d) && k < |es| && es[k].Call?
        ensures Allowed(r, idle, true, es, k) <==> Allowed(r, idle, false, es, k)
      {
        JanitorInvisible(r, idle, d, es, k);
      }
    } else {
      var es, k := JanitorVisible<K>(r, idle, d, key);
    }
  }

  /** The wait that brings this much. */
  lemma TimeFor(r: Rates, gain: real) returns (w: real)
    requires r.rate > 0.0
    ensures Gain(r, w) == gain && (gain >= 0.0 ==> w >= 0.0)
  {
    w := gain / r.rate;
    if gain >= 0.0 && w < 0.0 {
      GainOrder(r, w, 0.0);
      GainAdds(r, 0.0, 0.0);
    }
  }

  lemma GainOrder(r: Rates, b: real, c: real)
    requires r.rate > 0.0 && b <= c
    ensures Gain(r, b) <= Gain(r, c) && (b < c ==> Gain(r, b) < Gain(r, c))
  {
    Product(r.rate, c - b);
    GainAdds(r, b, c - b);
  }

  lemma Product(a: real, b: real)
    requires a > 0.0 && b >= 0.0
    ensures a * b >= 0.0 && (b > 0.0 ==> a * b > 0.0)
  {
  }

  // ---- What a key may do ----

  function Calls<K>(key: K, t: real, n: nat): seq<Event<K>> {
    if n == 0 then [] else Calls(key, t, n - 1) + [Call(key, t)]
  }

  /** What n calls at once leave of a burst: they stop at its fraction. */
  function LeftOf(burst: real, n: nat): real {
    if n as real <= burst then burst - n as real else burst - burst.Floor as real
  }

  lemma LeftNext(burst: real, n: nat)
    requires burst >= 0.0
    ensures LeftOf(burst, n) >= 1.0 <==> (n + 1) as real <= burst
    ensures LeftOf(burst, n + 1) == if LeftOf(burst, n) >= 1.0 then LeftOf(burst, n) - 1.0 else LeftOf(burst, n)
  {
    if n as real <= burst < (n + 1) as real {
      assert burst.Floor == n;
    }
  }

  lemma NothingCalled<K>(r: Rates, idle: real, key: K, t: real)
    requires r.rate >= 0.0 && r.burst >= 0.0
    ensures Ready<K>(r, idle, 0.0, [], t) && Credit(r, Run(r, idle, false, []), key, t) == LeftOf(r.burst, 0)
  {
  }

  lemma {:induction false} BurstLeft<K>(r: Rates, idle: real, key: K, t: real, n: nat)
    requires r.rate >= 0.0 && r.burst >= 0.0
    ensures |Calls(key, t, n)| == n && Ready(r, idle, 0.0, Calls(key, t, n), t)
    ensures Credit(r, Run(r, idle, false, Calls(key, t, n)), key, t) == LeftOf(r.burst, n)
  {
    hide Credit, Run, Allowed, Ready, LeftOf;
    if n == 0 {
      NothingCalled(r, idle, key, t);
    } else {
      BurstLeft(r, idle, key, t, n - 1);
      LeftNext(r.burst, n - 1);
      OneMoreCall(r, idle, 0.0, Calls(key, t, n - 1), key, t, false);
    }
  }

  /** A key that has not been seen has its burst at once: of so many calls at one moment exactly the first ones pass. */
  lemma BurstExactly<K>(r: Rates, idle: real, key: K, t: real, n: nat)
    requires r.rate >= 0.0 && r.burst >= 0.0
    ensures var es := Calls(key, t, n) + [Call(key, t)];
      |es| == n + 1 && es[n] == Call(key, t) && (Allowed(r, idle, false, es, n) <==> (n + 1) as real <= r.burst)
  {
    hide Credit, Run, Allowed, Ready, LeftOf, Calls;
    BurstLeft(r, idle, key, t, n);
    OneMoreCall(r, idle, 0.0, Calls(key, t, n), key, t, false);
    LeftNext(r.burst, n);
  }

  /** Waiting brings back what the rate says, up to the burst. */
  lemma WaitRestores<K>(r: Rates, idle: real, es: seq<Event<K>>, key: K, t: real, wait: real)
    requires r.rate >= 0.0 && r.burst >= 0.0 && wait >= 0.0 && Ready(r, idle, 0.0, es, t)
    ensures var x := Credit(r, Run(r, idle, false, es), key, t);
      Allowed(r, idle, false, es + [Call(key, t + wait)], |es|) <==> r.burst >= 1.0 && x + r.rate * wait >= 1.0
  {
    hide Credit, Run, Allowed, Gain, Filled, LastBy, Lag, Behind;
    RunFilled(r, idle, false, es);
    CreditExact(r, Run(r, idle, false, es), key, t, t + wait);
    assert t + wait - t == wait;
    GainIs(r, wait);
    ReadyLater(r, idle, 0.0, es, t, t + wait);
    hide Ready;
    OneMoreCall(r, idle, 0.0, es, key, t + wait, false);
  }
}
