/** The token bucket per key that limits appends. Times are in milliseconds, token counts are real numbers. */
module RateLimiter {

  datatype Limits = Limits(perSecond: real, burst: real)

  datatype Bucket = Bucket(tokens: real, at: real)

  type Buckets = map<string, Bucket>

  datatype Take = Take(key: string, now: real)

  const IDLE := 60000.0
  const MANY: nat := 10000

  /** The tokens that arrive in a span of time. */
  function Refill(l: Limits, ms: real): real {
    ms / 1000.0 * l.perSecond
  }

  function Min(a: real, b: real): real {
    if a < b then a else b
  }

  /** What a bucket holds once brought up to date. */
  function Current(l: Limits, b: Bucket, now: real): real {
    Min(l.burst, b.tokens + Refill(l, now - b.at))
  }

  /** What a key could take at this moment; a key without a bucket is full. */
  function Level(l: Limits, bs: Buckets, key: string, now: real): real {
    if key in bs then Current(l, bs[key], now) else l.burst
  }

  function Evict(bs: Buckets, now: real): Buckets {
    map k | k in bs && !(now - bs[k].at > IDLE) :: bs[k]
  }

  /** One take: the buckets after it and whether it was allowed. A limiter that forgets also drops idle buckets once
      there are many. */
  function Step(l: Limits, bs: Buckets, t: Take, forgets: bool): (Buckets, bool) {
    var b := if t.key in bs then bs[t.key] else Bucket(l.burst, t.now);
    var tokens := Current(l, b, t.now);
    if tokens < 1.0 then (bs[t.key := Bucket(tokens, t.now)], false)
    else
      var bs' := bs[t.key := Bucket(tokens - 1.0, t.now)];
      (if forgets && |bs'| > MANY then Evict(bs', t.now) else bs', true)
  }

  function Results(l: Limits, bs: Buckets, takes: seq<Take>, forgets: bool): seq<bool>
    decreases |takes|
  {
    if takes == [] then []
    else var r := Step(l, bs, takes[0], forgets); [r.1] + Results(l, r.0, takes[1..], forgets)
  }

  /** How many takes of the key were allowed. */
  function Allowed(l: Limits, bs: Buckets, takes: seq<Take>, forgets: bool, key: string): nat
    decreases |takes|
  {
    if takes == [] then 0
    else
      var r := Step(l, bs, takes[0], forgets);
      (if r.1 && takes[0].key == key then 1 else 0) + Allowed(l, r.0, takes[1..], forgets, key)
  }

  // ----- Arithmetic of refilling -----

  lemma RefillAdds(l: Limits, a: real, b: real)
    ensures Refill(l, a + b) == Refill(l, a) + Refill(l, b)
  {
    assert (a + b) / 1000.0 == a / 1000.0 + b / 1000.0;
    Distribute(a / 1000.0, b / 1000.0, l.perSecond);
  }

  lemma Distribute(x: real, y: real, z: real)
    ensures (x + y) * z == x * z + y * z
  {
  }

  lemma RefillNonNegative(l: Limits, ms: real)
    requires l.perSecond >= 0.0 && ms >= 0.0
    ensures Refill(l, ms) >= 0.0
  {
    ProductNonNegative(ms / 1000.0, l.perSecond);
  }

  lemma ProductNonNegative(x: real, y: real)
    requires x >= 0.0 && y >= 0.0
    ensures x * y >= 0.0
  {
  }

  lemma RefillZero(l: Limits)
    ensures Refill(l, 0.0) == 0.0
  {
  }

  // ----- What a run keeps -----

  ghost predicate Sane(l: Limits) {
    l.perSecond >= 0.0 && l.burst >= 0.0
  }

  /** Every bucket is between empty and full, and none was touched in the future. */
  ghost predicate Inv(l: Limits, bs: Buckets, now: real) {
    forall k :: k in bs ==> 0.0 <= bs[k].tokens <= l.burst && bs[k].at <= now
  }

  ghost predicate Ordered(takes: seq<Take>, from: real) {
    && (takes != [] ==> from <= takes[0].now)
    && forall i :: 0 <= i < |takes| - 1 ==> takes[i].now <= takes[i + 1].now
  }

  /** The time from the first take to the last. */
  function Span(takes: seq<Take>): real
    requires takes != []
  {
    takes[|takes| - 1].now - takes[0].now
  }

  lemma CurrentInRange(l: Limits, b: Bucket, now: real)
    requires Sane(l) && 0.0 <= b.tokens <= l.burst && b.at <= now
    ensures b.tokens <= Current(l, b, now) <= l.burst
  {
    RefillNonNegative(l, now - b.at);
  }

  lemma StepKeeps(l: Limits, bs: Buckets, t: Take, forgets: bool, before: real)
    requires Sane(l) && Inv(l, bs, before) && before <= t.now
    ensures Inv(l, Step(l, bs, t, forgets).0, t.now)
  {
    var b := if t.key in bs then bs[t.key] else Bucket(l.burst, t.now);
    CurrentInRange(l, b, t.now);
  }

  /** Between takes a level rises by no more than the refill. */
  lemma LevelRises(l: Limits, bs: Buckets, key: string, t0: real, t1: real)
    requires Sane(l) && Inv(l, bs, t0) && t0 <= t1
    ensures Level(l, bs, key, t0) <= Level(l, bs, key, t1) <= Level(l, bs, key, t0) + Refill(l, t1 - t0)
    ensures Level(l, bs, key, t1) <= l.burst
  {
    RefillNonNegative(l, t1 - t0);
    if key in bs {
      var b := bs[key];
      assert t1 - b.at == (t0 - b.at) + (t1 - t0);
      RefillAdds(l, t0 - b.at, t1 - t0);
    }
  }

  /** A bucket idle for more than a minute is full again, if a minute refills a whole burst. */
  lemma IdleIsFull(l: Limits, b: Bucket, now: real)
    requires Sane(l) && 60.0 * l.perSecond >= l.burst && b.tokens >= 0.0 && now - b.at > IDLE
    ensures Current(l, b, now) == l.burst
  {
    var extra := now - b.at - IDLE;
    RefillAdds(l, IDLE, extra);
    RefillNonNegative(l, extra);
    assert Refill(l, IDLE) == 60.0 * l.perSecond;
  }

  /** When forgetting cannot matter: the limiter does not forget, or a minute refills a whole burst, or no take is ever
      allowed, so that none is followed by an eviction. */
  predicate Harmless(l: Limits, forgets: bool) {
    !forgets || 60.0 * l.perSecond >= l.burst || l.burst < 1.0
  }

  /** Forgetting idle buckets changes no level. */
  lemma EvictKeepsLevels(l: Limits, bs: Buckets, now: real, key: string)
    requires Sane(l) && 60.0 * l.perSecond >= l.burst && Inv(l, bs, now)
    ensures Level(l, Evict(bs, now), key, now) == Level(l, bs, key, now)
  {
    if key in bs && now - bs[key].at > IDLE {
      IdleIsFull(l, bs[key], now);
    }
  }

  /** A take is allowed exactly if its key has a whole token, and then spends it, and nothing else. */
  lemma StepLevel(l: Limits, bs: Buckets, t: Take, forgets: bool, before: real, key: string)
    requires Sane(l) && Harmless(l, forgets) && Inv(l, bs, before) && before <= t.now
    ensures var r := Step(l, bs, t, forgets);
            Level(l, r.0, key, t.now) == Level(l, bs, key, t.now) - (if r.1 && t.key == key then 1.0 else 0.0)
            && Level(l, r.0, key, t.now) >= 0.0 && (r.1 <==> Level(l, bs, t.key, t.now) >= 1.0)
  {
    var b := if t.key in bs then bs[t.key] else Bucket(l.burst, t.now);
    var tokens := Current(l, b, t.now);
    RefillZero(l);
    CurrentInRange(l, b, t.now);
    if key in bs {
      CurrentInRange(l, bs[key], t.now);
    }
    if tokens >= 1.0 && forgets {
      var bs' := bs[t.key := Bucket(tokens - 1.0, t.now)];
      EvictKeepsLevels(l, bs', t.now, key);
    }
  }

  /** The bound, from any reachable state: what was available at the first take, plus what arrived up to the last. */
  lemma {:induction false} AllowedFromLevel(l: Limits, bs: Buckets, takes: seq<Take>, forgets: bool, key: string,
                                            before: real)
    requires Sane(l) && Harmless(l, forgets) && Inv(l, bs, before) && takes != [] && Ordered(takes, before)
    ensures Allowed(l, bs, takes, forgets, key) as real
            <= Level(l, bs, key, takes[0].now) + Refill(l, Span(takes))
    decreases |takes|
  {
    hide Step, Level, Refill, Inv, Sane, Harmless;
    var t := takes[0];
    var bs' := Step(l, bs, t, forgets).0;
    StepLevel(l, bs, t, forgets, before, key);
    StepKeeps(l, bs, t, forgets, before);
    if |takes| == 1 {
      RefillZero(l);
      assert Allowed(l, bs', takes[1..], forgets, key) == 0;
    } else {
      var rest, last := takes[1..], takes[|takes| - 1].now;
      assert Ordered(rest, t.now);
      AllowedFromLevel(l, bs', rest, forgets, key, t.now);
      LevelRises(l, bs', key, t.now, rest[0].now);
      assert last - t.now == (rest[0].now - t.now) + (last - rest[0].now);
      RefillAdds(l, rest[0].now - t.now, last - rest[0].now);
    }
  }

  /** Token bucket bound: with a clock that does not go back, the takes of one key allowed in any stretch of a run
      number at most a burst plus what arrives during the stretch. */
  lemma WindowBound(l: Limits, bs: Buckets, takes: seq<Take>, forgets: bool, key: string, before: real)
    requires Sane(l) && Harmless(l, forgets) && Inv(l, bs, before) && takes != [] && Ordered(takes, before)
    ensures Allowed(l, bs, takes, forgets, key) as real <= l.burst + Refill(l, Span(takes))
  {
    AllowedFromLevel(l, bs, takes, forgets, key, before);
    LevelRises(l, bs, key, before, takes[0].now);
  }

  // ----- Forgetting cannot be seen -----

  /** bs holds what all holds, but for buckets that are full by now. */
  ghost predicate SameButFull(l: Limits, bs: Buckets, all: Buckets, now: real) {
    && (forall k :: k in bs ==> k in all && bs[k] == all[k])
    && (forall k :: k in all && k !in bs ==> Current(l, all[k], now) == l.burst)
  }

  lemma StaysFull(l: Limits, bs: Buckets, all: Buckets, t0: real, t1: real)
    requires Sane(l) && Inv(l, all, t0) && t0 <= t1 && SameButFull(l, bs, all, t0)
    ensures SameButFull(l, bs, all, t1)
  {
    forall k | k in all && k !in bs
      ensures Current(l, all[k], t1) == l.burst
    {
      LevelRises(l, all, k, t0, t1);
    }
  }

  lemma StepAlike(l: Limits, bs: Buckets, all: Buckets, t: Take)
    requires Sane(l) && Harmless(l, true) && Inv(l, all, t.now) && SameButFull(l, bs, all, t.now)
    ensures var r, s := Step(l, bs, t, true), Step(l, all, t, false); r.1 == s.1 && SameButFull(l, r.0, s.0, t.now)
  {
    RefillZero(l);
    var b := if t.key in bs then bs[t.key] else Bucket(l.burst, t.now);
    var tokens := Current(l, b, t.now);
    assert tokens == Current(l, if t.key in all then all[t.key] else Bucket(l.burst, t.now), t.now);
    if tokens >= 1.0 {
      var bs' := bs[t.key := Bucket(tokens - 1.0, t.now)];
      var all' := all[t.key := Bucket(tokens - 1.0, t.now)];
      assert SameButFull(l, bs', all', t.now);
      forall k | k in bs' && k !in Evict(bs', t.now)
        ensures Current(l, all'[k], t.now) == l.burst
      {
        if k != t.key {
          IdleIsFull(l, all[k], t.now);
        }
      }
    }
  }

  /** A limiter that drops idle buckets answers every take as one that never does. */
  lemma {:induction false} ForgettingUnseen(l: Limits, bs: Buckets, all: Buckets, takes: seq<Take>, before: real)
    requires Sane(l) && Harmless(l, true) && Ordered(takes, before)
    requires Inv(l, all, before) && SameButFull(l, bs, all, before)
    ensures Results(l, bs, takes, true) == Results(l, all, takes, false)
    decreases |takes|
  {
    if takes != [] {
      var t := takes[0];
      StaysFull(l, bs, all, before, t.now);
      StepAlike(l, bs, all, t);
      StepKeeps(l, all, t, false, before);
      assert Ordered(takes[1..], t.now);
      ForgettingUnseen(l, Step(l, bs, t, true).0, Step(l, all, t, false).0, takes[1..], t.now);
    }
  }

  // ----- The class -----

  class RateLimiter {
    const limits: Limits
    var buckets: Buckets

    constructor (limits: Limits)
      ensures this.limits == limits && buckets == map[]
    {
      this.limits, buckets := limits, map[];
    }

    /** Allowed if the key's bucket, brought up to date, holds a whole token. */
    method TakeOne(key: string, now: real) returns (ok: bool)
      modifies this
      ensures (buckets, ok) == Step(limits, old(buckets), Take(key, now), true)
    {
      var b := if key in buckets then buckets[key] else Bucket(limits.burst, now);
      var tokens := Current(limits, b, now);
      if tokens < 1.0 {
        buckets := buckets[key := Bucket(tokens, now)];
        return false;
      }
      buckets := buckets[key := Bucket(tokens - 1.0, now)];
      if |buckets| > MANY {
        DropIdle(now);
      }
      ok := true;
    }

    method DropIdle(now: real)
      modifies this
      ensures buckets == Evict(old(buckets), now)
    {
      ghost var all := buckets;
      var left := buckets.Keys;
      while left != {}
        invariant left <= all.Keys
        invariant buckets == map k | k in all && (k in left || !(now - all[k].at > IDLE)) :: all[k]
        decreases |left|
      {
        var k :| k in left;
        left := left - {k};
        if now - buckets[k].at > IDLE {
          buckets := buckets - {k};
        }
      }
    }
  }
}
