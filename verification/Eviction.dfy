/** Exactly when a rate limiter may drop idle buckets: runs from an empty limiter that break the bound, or show the
    forgetting, for every setting outside the harmless ones. */
module Eviction {
  import opened RateLimiter

  // ----- Runs -----

  function After(l: Limits, bs: Buckets, takes: seq<Take>, forgets: bool): Buckets
    decreases |takes|
  {
    if takes == [] then bs else After(l, Step(l, bs, takes[0], forgets).0, takes[1..], forgets)
  }

  lemma {:induction false} RunConcat(l: Limits, bs: Buckets, a: seq<Take>, b: seq<Take>, forgets: bool, key: string)
    ensures After(l, bs, a + b, forgets) == After(l, After(l, bs, a, forgets), b, forgets)
    ensures Allowed(l, bs, a + b, forgets, key) ==
            Allowed(l, bs, a, forgets, key) + Allowed(l, After(l, bs, a, forgets), b, forgets, key)
    decreases |a|
  {
    if a == [] {
      assert a + b == b;
    } else {
      assert (a + b)[1..] == a[1..] + b;
      RunConcat(l, Step(l, bs, a[0], forgets).0, a[1..], b, forgets, key);
    }
  }

  lemma OneTake(l: Limits, bs: Buckets, t: Take, forgets: bool, key: string)
    ensures After(l, bs, [t], forgets) == Step(l, bs, t, forgets).0
    ensures Allowed(l, bs, [t], forgets, key) == if Step(l, bs, t, forgets).1 && t.key == key then 1 else 0
  {
    assert [t][1..] == [];
  }

  lemma {:induction false} AfterKeeps(l: Limits, bs: Buckets, takes: seq<Take>, forgets: bool, from: real)
      returns (now: real)
    requires Sane(l) && Inv(l, bs, from) && Ordered(takes, from)
    ensures now == if takes == [] then from else takes[|takes| - 1].now
    ensures Inv(l, After(l, bs, takes, forgets), now)
    decreases |takes|
  {
    if takes == [] {
      now := from;
    } else {
      StepKeeps(l, bs, takes[0], forgets, from);
      assert Ordered(takes[1..], takes[0].now);
      now := AfterKeeps(l, Step(l, bs, takes[0], forgets).0, takes[1..], forgets, takes[0].now);
    }
  }

  lemma OrderedConcat(a: seq<Take>, b: seq<Take>, from: real)
    requires a != [] && Ordered(a, from) && Ordered(b, a[|a| - 1].now)
    ensures Ordered(a + b, from)
  {
  }

  /** What was allowed can be read off the answers. */
  lemma {:induction false} AnswersTell(l: Limits, bs: Buckets, all: Buckets, takes: seq<Take>, key: string)
    requires Results(l, bs, takes, true) == Results(l, all, takes, false)
    ensures Allowed(l, bs, takes, true, key) == Allowed(l, all, takes, false, key)
    decreases |takes|
  {
    if takes != [] {
      var r, s := Step(l, bs, takes[0], true), Step(l, all, takes[0], false);
      var x, y := Results(l, r.0, takes[1..], true), Results(l, s.0, takes[1..], false);
      assert ([r.1] + x)[0] == ([s.1] + y)[0] && ([r.1] + x)[1..] == x && ([s.1] + y)[1..] == y;
      AnswersTell(l, r.0, s.0, takes[1..], key);
    }
  }

  // ----- The bound and the forgetting, over every run from an empty limiter -----

  /** In every stretch of every run of a limiter that forgets, the takes of one key allowed number at most a burst plus
      what arrives during the stretch. */
  ghost predicate BoundHolds(l: Limits) {
    forall before: seq<Take>, takes: seq<Take>, key: string ::
      takes != [] && Ordered(before + takes, 0.0) ==>
        Allowed(l, After(l, map[], before, true), takes, true, key) as real <= l.burst + Refill(l, Span(takes))
  }

  /** A limiter that forgets answers every run as one that does not. */
  ghost predicate Unseen(l: Limits) {
    forall takes: seq<Take> :: Ordered(takes, 0.0) ==> Results(l, map[], takes, true) == Results(l, map[], takes, false)
  }

  lemma BoundHoldsIfHarmless(l: Limits)
    requires Sane(l) && Harmless(l, true)
    ensures BoundHolds(l)
  {
    forall before: seq<Take>, takes: seq<Take>, key: string | takes != [] && Ordered(before + takes, 0.0)
      ensures Allowed(l, After(l, map[], before, true), takes, true, key) as real <= l.burst + Refill(l, Span(takes))
    {
      var run := before + takes;
      assert Ordered(before, 0.0) by {
        assert forall i :: 0 <= i < |before| ==> run[i] == before[i];
      }
      var now := AfterKeeps(l, map[], before, true, 0.0);
      assert Ordered(takes, now) by {
        assert forall i :: 0 <= i < |takes| ==> run[|before| + i] == takes[i];
        assert before != [] ==> run[|before| - 1].now == now;
      }
      WindowBound(l, After(l, map[], before, true), takes, true, key, now);
    }
  }

  // ----- Emptying a full bucket -----

  const KEY := "k"

  function Spend(n: nat, s: real): seq<Take> {
    if n == 0 then [] else [Take(KEY, s)] + Spend(n - 1, s)
  }

  /** The most takes that leave a full bucket with something: burst - 1 rounded up. */
  function Most(l: Limits): nat
    requires l.burst >= 1.0
  {
    if l.burst.Floor as real == l.burst then l.burst.Floor - 1 else l.burst.Floor
  }

  function Rest(l: Limits): real
    requires l.burst >= 1.0
  {
    l.burst - Most(l) as real
  }

  /** How long it takes what is left to become a whole token. */
  function Wait(l: Limits): real
    requires l.burst >= 1.0
  {
    if l.perSecond > 0.0 then (1.0 - Rest(l)) / l.perSecond * 1000.0 else 0.0
  }

  function Drain(l: Limits, s: real): seq<Take>
    requires l.burst >= 1.0
  {
    Spend(Most(l), s) + [Take(KEY, s + Wait(l))]
  }

  /** How many takes of a drain are allowed: the last one only if its token can still arrive. */
  function Drained(l: Limits): nat
    requires l.burst >= 1.0
  {
    Most(l) + if l.perSecond > 0.0 || Rest(l) == 1.0 then 1 else 0
  }

  lemma WaitBrings(l: Limits)
    requires Sane(l) && l.burst >= 1.0
    ensures 0.0 < Rest(l) <= 1.0 && Wait(l) >= 0.0
    ensures Refill(l, Wait(l)) == if l.perSecond > 0.0 then 1.0 - Rest(l) else 0.0
    ensures Rest(l) == 1.0 ==> Wait(l) == 0.0
  {
    if l.perSecond > 0.0 {
      var q := (1.0 - Rest(l)) / l.perSecond;
      assert q * l.perSecond == 1.0 - Rest(l) && q >= 0.0;
      assert Wait(l) / 1000.0 == q;
    }
  }

  lemma TakeAtLevel(l: Limits, bs: Buckets, now: real)
    requires Sane(l)
    ensures var r, level := Step(l, bs, Take(KEY, now), true), Level(l, bs, KEY, now);
            && (r.1 <==> level >= 1.0)
            && KEY in r.0 && r.0[KEY] == Bucket(level - (if r.1 then 1.0 else 0.0), now)
            && r.0.Keys <= bs.Keys + {KEY}
            && Level(l, r.0, KEY, now) == r.0[KEY].tokens
  {
    RefillZero(l);
  }

  lemma {:induction false} SpendAllows(l: Limits, bs: Buckets, n: nat, s: real)
    requires Sane(l) && Level(l, bs, KEY, s) >= n as real
    ensures Allowed(l, bs, Spend(n, s), true, KEY) == n
    ensures var after := After(l, bs, Spend(n, s), true);
            && after.Keys <= bs.Keys + {KEY}
            && Level(l, after, KEY, s) == Level(l, bs, KEY, s) - n as real
            && (n == 0 ==> after == bs)
            && (n > 0 ==> KEY in after && after[KEY] == Bucket(Level(l, bs, KEY, s) - n as real, s))
    decreases n
  {
    hide Step, Level;
    if n > 0 {
      TakeAtLevel(l, bs, s);
      var r := Step(l, bs, Take(KEY, s), true);
      assert Spend(n, s)[1..] == Spend(n - 1, s);
      SpendAllows(l, r.0, n - 1, s);
    }
  }

  /** What the wait at the end of a drain makes of the level. */
  lemma LevelAfterWait(l: Limits, mid: Buckets, s: real)
    requires Sane(l) && l.burst >= 1.0 && Level(l, mid, KEY, s) == Rest(l)
    requires KEY in mid ==> mid[KEY] == Bucket(Rest(l), s)
    requires KEY !in mid ==> Wait(l) == 0.0
    ensures Level(l, mid, KEY, s + Wait(l)) == if l.perSecond > 0.0 then 1.0 else Rest(l)
  {
    WaitBrings(l);
    hide Wait;
    assert (s + Wait(l)) - s == Wait(l);
  }

  /** The part of a drain before the wait. */
  lemma SpendMost(l: Limits, bs: Buckets, s: real)
    requires Sane(l) && l.burst >= 1.0 && Level(l, bs, KEY, s) == l.burst && KEY !in bs
    ensures Allowed(l, bs, Spend(Most(l), s), true, KEY) == Most(l)
    ensures var mid := After(l, bs, Spend(Most(l), s), true);
            && mid.Keys <= bs.Keys + {KEY} && Level(l, mid, KEY, s) == Rest(l)
            && (KEY in mid ==> mid[KEY] == Bucket(Rest(l), s))
            && (KEY !in mid ==> Wait(l) == 0.0)
  {
    WaitBrings(l);
    SpendAllows(l, bs, Most(l), s);
  }

  /** The take after the wait. */
  lemma TakeRest(l: Limits, mid: Buckets, s: real)
    requires Sane(l) && l.burst >= 1.0 && Level(l, mid, KEY, s) == Rest(l)
    requires KEY in mid ==> mid[KEY] == Bucket(Rest(l), s)
    requires KEY !in mid ==> Wait(l) == 0.0
    ensures var last := Take(KEY, s + Wait(l));
            && Allowed(l, mid, [last], true, KEY) == Drained(l) - Most(l)
            && var after := After(l, mid, [last], true);
               after.Keys <= mid.Keys + {KEY} && KEY in after && after[KEY].at == s + Wait(l)
  {
    hide Step, Level, Wait, After, Allowed, Refill, Most, Rest;
    WaitBrings(l);
    OneTake(l, mid, Take(KEY, s + Wait(l)), true, KEY);
    TakeAtLevel(l, mid, s + Wait(l));
    LevelAfterWait(l, mid, s);
  }

  lemma DrainAllows(l: Limits, bs: Buckets, s: real)
    requires Sane(l) && l.burst >= 1.0 && Level(l, bs, KEY, s) == l.burst && KEY !in bs
    ensures Allowed(l, bs, Drain(l, s), true, KEY) == Drained(l)
    ensures var after := After(l, bs, Drain(l, s), true);
            after.Keys <= bs.Keys + {KEY} && KEY in after && after[KEY].at == s + Wait(l)
  {
    hide Level, Wait, Spend, After, Allowed, Most, Rest, Drained;
    SpendMost(l, bs, s);
    RunConcat(l, bs, Spend(Most(l), s), [Take(KEY, s + Wait(l))], true, KEY);
    TakeRest(l, After(l, bs, Spend(Most(l), s), true), s);
  }

  lemma {:induction false} SpendSteady(n: nat, s: real)
    ensures |Spend(n, s)| == n && forall i :: 0 <= i < n ==> Spend(n, s)[i] == Take(KEY, s)
  {
    if n > 0 {
      SpendSteady(n - 1, s);
    }
  }

  lemma DrainOrdered(l: Limits, s: real)
    requires Sane(l) && l.burst >= 1.0
    ensures Ordered(Drain(l, s), s) && |Drain(l, s)| > 0
    ensures Drain(l, s)[0].now == s && Drain(l, s)[|Drain(l, s)| - 1].now == s + Wait(l)
  {
    WaitBrings(l);
    SpendSteady(Most(l), s);
  }

  // ----- Filling the limiter with other keys -----

  function Filler(i: nat): string {
    seq(i + 2, _ => 'f')
  }

  function Fill(n: nat, s: real): seq<Take> {
    if n == 0 then [] else Fill(n - 1, s) + [Take(Filler(n - 1), s)]
  }

  lemma {:induction false} FillSteady(n: nat, s: real)
    ensures |Fill(n, s)| == n && forall i :: 0 <= i < n ==> Fill(n, s)[i].now == s
  {
    if n > 0 {
      FillSteady(n - 1, s);
    }
  }

  /** Up to the limit nothing is dropped. */
  lemma {:induction false} FillKeeps(l: Limits, bs: Buckets, n: nat, s: real)
    requires Sane(l) && l.burst >= 1.0 && bs.Keys == {KEY} && n < MANY
    ensures var after := After(l, bs, Fill(n, s), true);
            && |after| == n + 1 && KEY in after && after[KEY] == bs[KEY]
            && forall k :: k in after ==> |k| <= n + 1
    ensures Allowed(l, bs, Fill(n, s), true, KEY) == 0
  {
    if n == 0 {
      assert |bs.Keys| == 1;
    } else {
      FillKeeps(l, bs, n - 1, s);
      FillMore(l, bs, n - 1, s);
    }
  }

  /** A key not seen before starts full, and its first take is allowed. */
  lemma FirstTake(l: Limits, mid: Buckets, key: string, s: real)
    requires Sane(l) && l.burst >= 1.0 && key !in mid
    ensures var r, full := Step(l, mid, Take(key, s), true), mid[key := Bucket(l.burst - 1.0, s)];
            r.1 && |full| == |mid| + 1 && r.0 == if |full| > MANY then Evict(full, s) else full
  {
    RefillZero(l);
    assert Current(l, Bucket(l.burst, s), s) == l.burst;
  }

  /** One more key; the last one drops what has been idle. */
  lemma FillMore(l: Limits, bs: Buckets, n: nat, s: real)
    requires Sane(l) && l.burst >= 1.0 && n < MANY
    requires var mid := After(l, bs, Fill(n, s), true); |mid| == n + 1 && forall k :: k in mid ==> |k| <= n + 1
    ensures var mid, after := After(l, bs, Fill(n, s), true), After(l, bs, Fill(n + 1, s), true);
            var full := mid[Filler(n) := Bucket(l.burst - 1.0, s)];
            |full| == n + 2 && Filler(n) != KEY && after == if n + 1 < MANY then full else Evict(full, s)
    ensures Allowed(l, bs, Fill(n + 1, s), true, KEY) == Allowed(l, bs, Fill(n, s), true, KEY)
  {
    hide Step, After, Allowed, Evict;
    var t := Take(Filler(n), s);
    var mid := After(l, bs, Fill(n, s), true);
    RunConcat(l, bs, Fill(n, s), [t], true, KEY);
    OneTake(l, mid, t, true, KEY);
    assert |Filler(n)| == n + 2 && |KEY| == 1;
    FirstTake(l, mid, Filler(n), s);
  }

  lemma FillDrops(l: Limits, bs: Buckets, s: real)
    requires Sane(l) && l.burst >= 1.0 && bs.Keys == {KEY} && s - bs[KEY].at > IDLE
    ensures KEY !in After(l, bs, Fill(MANY, s), true)
    ensures Allowed(l, bs, Fill(MANY, s), true, KEY) == 0
  {
    FillKeeps(l, bs, MANY - 1, s);
    FillMore(l, bs, MANY - 1, s);
  }

  // ----- A run that breaks the bound -----

  /** How much longer than a minute to stay idle, so that the minute's refill is still short of a burst. */
  function Extra(l: Limits): real {
    var gap := l.burst - 60.0 * l.perSecond;
    if l.perSecond <= gap || l.perSecond <= 0.0 then 500.0 else 500.0 * (gap / l.perSecond)
  }

  function SecondStart(l: Limits): real
    requires l.burst >= 1.0
  {
    Wait(l) + (IDLE + Extra(l))
  }

  /** Drain one key, leave it idle for just over a minute, bring in enough others, and drain it again. */
  function BadRun(l: Limits): seq<Take>
    requires l.burst >= 1.0
  {
    Drain(l, 0.0) + Fill(MANY, SecondStart(l)) + Drain(l, SecondStart(l))
  }

  lemma ExtraIsShort(l: Limits)
    requires Sane(l) && !Harmless(l, true)
    ensures Extra(l) > 0.0 && Refill(l, IDLE + Extra(l)) < l.burst
  {
    var gap := l.burst - 60.0 * l.perSecond;
    if l.perSecond > gap {
      var q := gap / l.perSecond;
      assert q > 0.0 && q * l.perSecond == gap;
      assert Extra(l) / 1000.0 == 0.5 * q;
      Associate(0.5, q, l.perSecond);
    }
    RefillAdds(l, IDLE, Extra(l));
    assert Refill(l, IDLE) == 60.0 * l.perSecond;
  }

  lemma Associate(x: real, y: real, z: real)
    ensures (x * y) * z == x * (y * z)
  {
  }

  lemma BadRunOrdered(l: Limits)
    requires Sane(l) && !Harmless(l, true)
    ensures Ordered(BadRun(l), 0.0) && BadRun(l) != [] && Span(BadRun(l)) == SecondStart(l) + Wait(l)
  {
    var s := SecondStart(l);
    WaitBrings(l);
    ExtraIsShort(l);
    DrainOrdered(l, 0.0);
    DrainOrdered(l, s);
    FillSteady(MANY, s);
    var first, fill, second := Drain(l, 0.0), Fill(MANY, s), Drain(l, s);
    hide Drain, Fill, Wait, SecondStart;
    OrderedConcat(fill, second, first[|first| - 1].now);
    OrderedConcat(first, fill + second, 0.0);
    assert first + fill + second == first + (fill + second);
  }

  lemma BadRunAllows(l: Limits)
    requires Sane(l) && !Harmless(l, true)
    ensures Allowed(l, map[], BadRun(l), true, KEY) == Drained(l) + Drained(l)
  {
    var s := SecondStart(l);
    var first, fill, second := Drain(l, 0.0), Fill(MANY, s), Drain(l, s);
    ExtraIsShort(l);
    DrainAllows(l, map[], 0.0);
    var a := After(l, map[], first, true);
    FillDrops(l, a, s);
    var b := After(l, a, fill, true);
    DrainAllows(l, b, s);
    RunConcat(l, map[], first + fill, second, true, KEY);
    RunConcat(l, map[], first, fill, true, KEY);
  }

  lemma TooMany(l: Limits)
    requires Sane(l) && !Harmless(l, true)
    ensures (Drained(l) + Drained(l)) as real > l.burst + Refill(l, SecondStart(l) + Wait(l))
  {
    WaitBrings(l);
    ExtraIsShort(l);
    RefillAdds(l, SecondStart(l), Wait(l));
    RefillAdds(l, Wait(l), IDLE + Extra(l));
  }

  /** The run is allowed more than the bound, and more than a limiter that does not forget would allow it. */
  lemma BadRunBreaks(l: Limits)
    requires Sane(l) && !Harmless(l, true)
    ensures Ordered(BadRun(l), 0.0) && BadRun(l) != []
    ensures Allowed(l, map[], BadRun(l), true, KEY) as real > l.burst + Refill(l, Span(BadRun(l)))
    ensures Results(l, map[], BadRun(l), true) != Results(l, map[], BadRun(l), false)
  {
    BadRunOrdered(l);
    BadRunAllows(l);
    TooMany(l);
    hide BadRun;
    WindowBound(l, map[], BadRun(l), false, KEY, 0.0);
    if Results(l, map[], BadRun(l), true) == Results(l, map[], BadRun(l), false) {
      AnswersTell(l, map[], map[], BadRun(l), KEY);
    }
  }

  // ----- The exact condition -----

  /** Over all runs of a limiter that drops idle buckets: the bound holds exactly when a minute refills a whole burst or
      no burst holds a whole token, and exactly then is the dropping unseen. */
  lemma EvictionExactly(l: Limits)
    requires Sane(l)
    ensures BoundHolds(l) <==> 60.0 * l.perSecond >= l.burst || l.burst < 1.0
    ensures Unseen(l) <==> 60.0 * l.perSecond >= l.burst || l.burst < 1.0
  {
    if Harmless(l, true) {
      BoundHoldsIfHarmless(l);
      forall takes: seq<Take> | Ordered(takes, 0.0)
        ensures Results(l, map[], takes, true) == Results(l, map[], takes, false)
      {
        ForgettingUnseen(l, map[], map[], takes, 0.0);
      }
    } else {
      BadRunBreaks(l);
      var takes := BadRun(l);
      hide BadRun;
      assert [] + takes == takes;
      assert After(l, map[], [], true) == map[];
    }
  }
}
