/** The token-bucket limiter, and what forgetting idle keys does to it. */
module RateLimiter {

  datatype Bucket = Bucket(tokens: real, updatedAt: int)

  /** One call of `allow`, with the clock reading it takes. */
  datatype Call = Call(key: string, cost: real, now: int)

  const MAX_KEYS := 10_000
  const IDLE_MS := 300_000

  function Min(a: real, b: real): real { if a <= b then a else b }

  /** The tokens `ms` milliseconds bring. */
  function Gain(refillPerSecond: real, ms: int): real {
    ms as real / 1000.0 * refillPerSecond
  }

  /** The tokens a key has at a moment: a key that is not kept has a full bucket. */
  function Level(capacity: real, refill: real, buckets: map<string, Bucket>, key: string, now: int): real {
    if key in buckets
    then Min(capacity, buckets[key].tokens + Gain(refill, now - buckets[key].updatedAt))
    else Min(capacity, capacity + Gain(refill, 0))
  }

  function Allowed(capacity: real, refill: real, buckets: map<string, Bucket>, c: Call): bool {
    Level(capacity, refill, buckets, c.key, c.now) >= c.cost
  }

  /** The buckets after a call, before any cleanup. */
  function Spent(capacity: real, refill: real, buckets: map<string, Bucket>, c: Call): map<string, Bucket> {
    var level := Level(capacity, refill, buckets, c.key, c.now);
    buckets[c.key := Bucket(if level >= c.cost then level - c.cost else level, c.now)]
  }

  predicate Idle(b: Bucket, now: int) {
    now - b.updatedAt > IDLE_MS
  }

  function Evicted(buckets: map<string, Bucket>, now: int): map<string, Bucket> {
    map k | k in buckets && !Idle(buckets[k], now) :: buckets[k]
  }

  /** The buckets after a call, of the limiter as it is (`forgets`) or of one that never forgets a key. */
  function After(
      capacity: real, refill: real, forgets: bool, buckets: map<string, Bucket>, c: Call): map<string, Bucket> {
    var spent := Spent(capacity, refill, buckets, c);
    if forgets && Allowed(capacity, refill, buckets, c) && |spent| > MAX_KEYS then Evicted(spent, c.now) else spent
  }

  class RateLimiter {
    const capacity: real
    const refillPerSecond: real
    var buckets: map<string, Bucket>

    constructor (capacity: real, refillPerSecond: real)
      ensures this.capacity == capacity && this.refillPerSecond == refillPerSecond && buckets == map[]
    {
      this.capacity := capacity;
      this.refillPerSecond := refillPerSecond;
      buckets := map[];
    }

    method Allow(key: string, cost: real, now: int) returns (ok: bool)
      modifies this`buckets
      ensures ok == Allowed(capacity, refillPerSecond, old(buckets), Call(key, cost, now))
      ensures buckets == After(capacity, refillPerSecond, true, old(buckets), Call(key, cost, now))
    {
      var bucket := if key in buckets then buckets[key] else Bucket(capacity, now);
      var elapsed := (now - bucket.updatedAt) as real / 1000.0;
      bucket := Bucket(Min(capacity, bucket.tokens + elapsed * refillPerSecond), now);
      if bucket.tokens < cost {
        buckets := buckets[key := bucket];
        return false;
      }
      bucket := bucket.(tokens := bucket.tokens - cost);
      buckets := buckets[key := bucket];
      if |buckets| > MAX_KEYS {
        Forget(now);
      }
      return true;
    }

    /** The cleanup loop. */
    method Forget(now: int)
      modifies this`buckets
      ensures buckets == Evicted(old(buckets), now)
    {
      var left := buckets.Keys;
      while left != {}
        invariant left <= old(buckets).Keys
        invariant forall k :: k in buckets <==> k in old(buckets) && (k in left || !Idle(old(buckets)[k], now))
        invariant forall k :: k in buckets ==> buckets[k] == old(buckets)[k]
        decreases |left|
      {
        var k :| k in left;
        left := left - {k};
        if now - buckets[k].updatedAt > IDLE_MS {
          buckets := buckets - {k};
        }
      }
    }
  }

  // ---- arithmetic of refilling

  lemma {:induction false} GainGrows(refill: real, more: real, ms: int)
    requires 0.0 <= refill <= more && 0 <= ms
    ensures 0.0 <= Gain(refill, ms) <= Gain(more, ms)
  {
    var t := ms as real / 1000.0;
    assert t >= 0.0;
    assert t * refill <= t * more;
  }

  lemma {:induction false} GainAdds(refill: real, a: int, b: int)
    ensures Gain(refill, a + b) == Gain(refill, a) + Gain(refill, b)
  {
    var x, y := a as real / 1000.0, b as real / 1000.0;
    assert (a + b) as real == a as real + b as real;
    assert (a + b) as real / 1000.0 == x + y;
    assert (x + y) * refill == x * refill + y * refill;
  }

  lemma {:induction false} GainOrdered(refill: real, a: int, b: int)
    requires 0.0 <= refill && a <= b
    ensures Gain(refill, a) <= Gain(refill, b)
  {
    GainAdds(refill, a, b - a);
    GainGrows(0.0, refill, b - a);
  }

  // ---- runs

  /** Calls in clock order, none before `from`. */
  ghost predicate InOrder(calls: seq<Call>, from: int) {
    && (forall i :: 0 <= i < |calls| ==> calls[i].cost >= 0.0 && from <= calls[i].now)
    && (forall i, j :: 0 <= i < j < |calls| ==> calls[i].now <= calls[j].now)
  }

  ghost predicate AllBy(calls: seq<Call>, until: int) {
    forall i :: 0 <= i < |calls| ==> calls[i].now <= until
  }

  /** A limiter between calls: buckets hold between nothing and the capacity, and none is from the future. */
  ghost predicate Valid(capacity: real, buckets: map<string, Bucket>, now: int) {
    forall k :: k in buckets ==> 0.0 <= buckets[k].tokens <= capacity && buckets[k].updatedAt <= now
  }

  /** The buckets after a run of calls. */
  function AfterAll(
      capacity: real, refill: real, forgets: bool, buckets: map<string, Bucket>, calls: seq<Call>): map<string, Bucket>
    decreases |calls|
  {
    if calls == [] then buckets
    else AfterAll(capacity, refill, forgets, After(capacity, refill, forgets, buckets, calls[0]), calls[1..])
  }

  function Answers(
      capacity: real, refill: real, forgets: bool, buckets: map<string, Bucket>, calls: seq<Call>): seq<bool>
    decreases |calls|
  {
    if calls == [] then []
    else
      var rest := Answers(capacity, refill, forgets, After(capacity, refill, forgets, buckets, calls[0]), calls[1..]);
      [Allowed(capacity, refill, buckets, calls[0])] + rest
  }

  /** What one call admits for a key. */
  function Share(capacity: real, refill: real, buckets: map<string, Bucket>, c: Call, key: string): real {
    if c.key == key && Allowed(capacity, refill, buckets, c) then c.cost else 0.0
  }

  /** What a run of calls admits for one key, in total. */
  function Admitted(capacity: real, refill: real, buckets: map<string, Bucket>, calls: seq<Call>, key: string): real
    decreases |calls|
  {
    if calls == [] then 0.0
    else
      var after := After(capacity, refill, true, buckets, calls[0]);
      Share(capacity, refill, buckets, calls[0], key) + Admitted(capacity, refill, after, calls[1..], key)
  }

  lemma {:induction false} AfterIsValid(capacity: real, refill: real, buckets: map<string, Bucket>, c: Call, from: int)
    requires 0.0 <= capacity && 0.0 <= refill && 0.0 <= c.cost && from <= c.now && Valid(capacity, buckets, from)
    ensures Valid(capacity, Spent(capacity, refill, buckets, c), c.now)
    ensures Valid(capacity, After(capacity, refill, true, buckets, c), c.now)
  {
    if c.key in buckets {
      GainGrows(0.0, refill, c.now - buckets[c.key].updatedAt);
    }
  }

  // ---- the window

  /** The rate a bucket really refills at: an idle bucket is full again once it may be forgotten. */
  ghost predicate CoversEviction(capacity: real, rate: real) {
    Gain(rate, IDLE_MS + 1) >= capacity
  }

  /** At a rate that covers eviction, forgetting idle buckets changes no level. */
  lemma {:induction false} EvictionKeepsLevels(
      capacity: real, rate: real, buckets: map<string, Bucket>, now: int, key: string, later: int)
    requires 0.0 <= capacity && 0.0 <= rate && CoversEviction(capacity, rate)
    requires Valid(capacity, buckets, now) && now <= later
    ensures Level(capacity, rate, Evicted(buckets, now), key, later) == Level(capacity, rate, buckets, key, later)
  {
    if key in buckets && Idle(buckets[key], now) {
      GainOrdered(rate, IDLE_MS + 1, later - buckets[key].updatedAt);
    }
  }

  /** What a call leaves of the level its key had at a rate at least the limiter's own. */
  lemma {:induction false} SpentLevel(
      capacity: real, refill: real, rate: real, buckets: map<string, Bucket>, c: Call, from: int, key: string)
    requires 0.0 <= capacity && 0.0 <= refill <= rate && 0.0 <= c.cost
        && from <= c.now && Valid(capacity, buckets, from)
    ensures Level(capacity, rate, Spent(capacity, refill, buckets, c), key, c.now)
         <= Level(capacity, rate, buckets, key, c.now)
            - Share(capacity, refill, buckets, c, key)
  {
    if c.key == key {
      var spent := Spent(capacity, refill, buckets, c);
      assert Gain(rate, c.now - spent[key].updatedAt) == 0.0;
      if key in buckets {
        GainGrows(refill, rate, c.now - buckets[key].updatedAt);
      }
    }
  }

  lemma {:induction false} LevelGrows(
      capacity: real, rate: real, buckets: map<string, Bucket>, key: string, a: int, b: int)
    requires 0.0 <= rate && a <= b
    ensures Level(capacity, rate, buckets, key, b) <= Level(capacity, rate, buckets, key, a) + Gain(rate, b - a)
  {
    GainGrows(0.0, rate, b - a);
    if key in buckets {
      GainAdds(rate, a - buckets[key].updatedAt, b - a);
    }
  }

  /** What one call admits is taken out of the level its key had. */
  lemma {:induction false} StepWithinLevel(
      capacity: real, refill: real, rate: real, buckets: map<string, Bucket>, c: Call, key: string, from: int)
    requires 0.0 <= capacity && 0.0 <= refill <= rate && CoversEviction(capacity, rate)
    requires Valid(capacity, buckets, from) && 0.0 <= c.cost && from <= c.now
    ensures Share(capacity, refill, buckets, c, key)
        + Level(capacity, rate, After(capacity, refill, true, buckets, c), key, c.now)
         <= Level(capacity, rate, buckets, key, from) + Gain(rate, c.now - from)
  {
    var spent := Spent(capacity, refill, buckets, c);
    AfterIsValid(capacity, refill, buckets, c, from);
    EvictionKeepsLevels(capacity, rate, spent, c.now, key, c.now);
    SpentLevel(capacity, refill, rate, buckets, c, from, key);
    LevelGrows(capacity, rate, buckets, key, from, c.now);
  }

  lemma {:induction false} LevelNotNegative(
      capacity: real, rate: real, buckets: map<string, Bucket>, key: string, from: int)
    requires 0.0 <= capacity && 0.0 <= rate && Valid(capacity, buckets, from)
    ensures 0.0 <= Level(capacity, rate, buckets, key, from) <= capacity
  {
    if key in buckets {
      GainGrows(0.0, rate, from - buckets[key].updatedAt);
    }
  }

  lemma {:induction false} AdmittedWithinLevel(capacity: real, refill: real, rate: real, buckets: map<string, Bucket>,
                                               calls: seq<Call>, key: string, from: int, until: int)
    requires 0.0 <= capacity && 0.0 <= refill <= rate && CoversEviction(capacity, rate)
    requires Valid(capacity, buckets, from) && InOrder(calls, from)
    requires from <= until && AllBy(calls, until)
    ensures Admitted(capacity, refill, buckets, calls, key)
         <= Level(capacity, rate, buckets, key, from) + Gain(rate, until - from)
    decreases |calls|
  {
    if calls == [] {
      GainGrows(0.0, rate, until - from);
      LevelNotNegative(capacity, rate, buckets, key, from);
    } else {
      var c := calls[0];
      OrderedTail(calls, from);
      var after := After(capacity, refill, true, buckets, c);
      assert Valid(capacity, after, c.now) by { AfterIsValid(capacity, refill, buckets, c, from); }
      AdmittedWithinLevel(capacity, refill, rate, after, calls[1..], key, c.now, until);
      StepWithinLevel(capacity, refill, rate, buckets, c, key, from);
      GainAdds(rate, c.now - from, until - c.now);
      assert Admitted(capacity, refill, buckets, calls, key)
          == Share(capacity, refill, buckets, c, key) + Admitted(capacity, refill, after, calls[1..], key);
    }
  }

  lemma {:induction false} OrderedTail(calls: seq<Call>, from: int)
    requires calls != [] && InOrder(calls, from)
    ensures calls[0].cost >= 0.0 && from <= calls[0].now && InOrder(calls[1..], calls[0].now)
  {
  }

  /**
   * Whatever the limiter has seen before, the cost it admits for one key in a
   * window is at most the capacity and the refill of the window, at the rate
   * at which buckets fill or are forgotten, whichever is faster.
   */
  lemma {:induction false} WindowBound(capacity: real, refill: real, rate: real, buckets: map<string, Bucket>,
                    calls: seq<Call>, key: string, from: int, until: int)
    requires 0.0 <= capacity && 0.0 <= refill <= rate && CoversEviction(capacity, rate)
    requires Valid(capacity, buckets, from) && InOrder(calls, from)
    requires from <= until && AllBy(calls, until)
    ensures Admitted(capacity, refill, buckets, calls, key) <= capacity + Gain(rate, until - from)
  {
    AdmittedWithinLevel(capacity, refill, rate, buckets, calls, key, from, until);
  }

  /**
   * In plain numbers: a limiter that refills in five minutes admits at most its
   * capacity and `refill` a second for one key in a window of `ms` milliseconds.
   */
  lemma {:induction false} WindowBoundInTokens(capacity: real, refill: real, buckets: map<string, Bucket>,
                                               calls: seq<Call>, key: string, from: int, ms: nat)
    requires 0.0 <= capacity && 0.0 <= refill && refill * 300.001 >= capacity
    requires Valid(capacity, buckets, from) && InOrder(calls, from) && AllBy(calls, from + ms)
    ensures Admitted(capacity, refill, buckets, calls, key) <= capacity + refill * (ms as real) / 1000.0
  {
    GainIs(refill, IDLE_MS + 1);
    GainIs(refill, ms);
    WindowBound(capacity, refill, refill, buckets, calls, key, from, from + ms);
  }

  // ---- eviction, seen or not

  /** Two limiters every call would find in the same state. */
  ghost predicate SameLevels(capacity: real, refill: real, a: map<string, Bucket>, b: map<string, Bucket>, now: int) {
    forall k, t :: now <= t ==> Level(capacity, refill, a, k, t) == Level(capacity, refill, b, k, t)
  }

  lemma {:induction false} StepKeepsSame(
      capacity: real, refill: real, a: map<string, Bucket>, b: map<string, Bucket>, c: Call, from: int)
    requires 0.0 <= capacity && 0.0 <= refill && CoversEviction(capacity, refill) && 0.0 <= c.cost && from <= c.now
    requires Valid(capacity, a, from) && SameLevels(capacity, refill, a, b, from)
    ensures Allowed(capacity, refill, a, c) == Allowed(capacity, refill, b, c)
    ensures SameLevels(capacity, refill, After(capacity, refill, true, a, c), After(capacity, refill, false, b, c),
        c.now)
  {
    var x, y := After(capacity, refill, true, a, c), After(capacity, refill, false, b, c);
    AfterIsValid(capacity, refill, a, c, from);
    forall k, t | c.now <= t ensures Level(capacity, refill, x, k, t) == Level(capacity, refill, y, k, t) {
      var spent := Spent(capacity, refill, a, c);
      assert Level(capacity, refill, a, c.key, c.now) == Level(capacity, refill, b, c.key, c.now);
      assert Level(capacity, refill, a, k, t) == Level(capacity, refill, b, k, t);
      EvictionKeepsLevels(capacity, refill, spent, c.now, k, t);
    }
  }

  lemma {:induction false} SameAnswers(capacity: real, refill: real, a: map<string, Bucket>, b: map<string, Bucket>,
                                       calls: seq<Call>, from: int)
    requires 0.0 <= capacity && 0.0 <= refill && CoversEviction(capacity, refill)
    requires Valid(capacity, a, from) && SameLevels(capacity, refill, a, b, from) && InOrder(calls, from)
    ensures Answers(capacity, refill, true, a, calls) == Answers(capacity, refill, false, b, calls)
    decreases |calls|
  {
    if calls != [] {
      var c := calls[0];
      OrderedTail(calls, from);
      AfterIsValid(capacity, refill, a, c, from);
      StepKeepsSame(capacity, refill, a, b, c, from);
      SameAnswers(capacity, refill, After(capacity, refill, true, a, c), After(capacity, refill, false, b, c),
        calls[1..], c.now);
    }
  }

  // ---- what a call does to the buckets

  /**
   * A key other than the caller's is forgotten exactly by an admitted call that leaves more than
   * 10,000 keys, after five minutes without one.
   */
  lemma {:induction false} ForgetsExactlyWhen(
      capacity: real, refill: real, buckets: map<string, Bucket>, c: Call, key: string)
    requires key in buckets && key != c.key
    ensures var after := After(capacity, refill, true, buckets, c);
            && (key !in after <==>
                  && Allowed(capacity, refill, buckets, c)
                  && |buckets.Keys + {c.key}| > 10_000 && c.now - buckets[key].updatedAt > 300_000)
            && (key in after ==> after[key] == buckets[key])
  {
    assert Spent(capacity, refill, buckets, c).Keys == buckets.Keys + {c.key};
    assert |Spent(capacity, refill, buckets, c)| == |Spent(capacity, refill, buckets, c).Keys|;
  }

  /**
   * The tokens a key has: the capacity at first, and then what it had and what the time has
   * brought, up to the capacity.
   */
  function Tokens(capacity: real, refill: real, buckets: map<string, Bucket>, c: Call): real {
    if c.key !in buckets then capacity
    else
      var b := buckets[c.key];
      var filled := b.tokens + refill * ((c.now - b.updatedAt) as real) / 1000.0;
      if filled < capacity then filled else capacity
  }

  /** A call is admitted exactly when the tokens cover it, and takes its cost only then; its key is kept either way. */
  lemma {:induction false} AdmitsExactlyWhen(capacity: real, refill: real, buckets: map<string, Bucket>, c: Call)
    ensures var tokens, ok := Tokens(capacity, refill, buckets, c), Allowed(capacity, refill, buckets, c);
            && (ok <==> c.cost <= tokens)
            && c.key in After(capacity, refill, true, buckets, c)
            && After(capacity, refill, true, buckets, c)[c.key] == Bucket(if ok then tokens - c.cost else tokens, c.now)
  {
    assert Gain(refill, 0) == 0.0;
    if c.key in buckets {
      GainIs(refill, c.now - buckets[c.key].updatedAt);
    }
  }

  lemma {:induction false} GainIs(refill: real, ms: int)
    ensures Gain(refill, ms) == refill * (ms as real) / 1000.0
  {
    var t := ms as real / 1000.0;
    assert t * 1000.0 == ms as real;
    assert refill * (t * 1000.0) == (t * refill) * 1000.0;
  }

  // ---- runs put together

  lemma {:induction false} RunsOn(capacity: real, refill: real, forgets: bool, buckets: map<string, Bucket>,
                                  calls: seq<Call>, next: seq<Call>)
    ensures AfterAll(capacity, refill, forgets, buckets, calls + next)
         == AfterAll(capacity, refill, forgets, AfterAll(capacity, refill, forgets, buckets, calls), next)
    decreases |calls|
  {
    if calls == [] {
      assert calls + next == next;
    } else {
      assert (calls + next)[1..] == calls[1..] + next;
      RunsOn(capacity, refill, forgets, After(capacity, refill, forgets, buckets, calls[0]), calls[1..], next);
    }
  }

  lemma {:induction false} AnswersOn(capacity: real, refill: real, forgets: bool, buckets: map<string, Bucket>,
                                     calls: seq<Call>, next: seq<Call>)
    ensures Answers(capacity, refill, forgets, buckets, calls + next)
         == Answers(capacity, refill, forgets, buckets, calls)
            + Answers(capacity, refill, forgets, AfterAll(capacity, refill, forgets, buckets, calls), next)
    decreases |calls|
  {
    if calls == [] {
      assert calls + next == next;
    } else {
      assert (calls + next)[1..] == calls[1..] + next;
      AnswersOn(capacity, refill, forgets, After(capacity, refill, forgets, buckets, calls[0]), calls[1..], next);
    }
  }

  lemma {:induction false} AdmitsOn(capacity: real, refill: real, buckets: map<string, Bucket>,
                                    calls: seq<Call>, next: seq<Call>, key: string)
    ensures Admitted(capacity, refill, buckets, calls + next, key)
         == Admitted(capacity, refill, buckets, calls, key)
            + Admitted(capacity, refill, AfterAll(capacity, refill, true, buckets, calls), next, key)
    decreases |calls|
  {
    if calls == [] {
      assert calls + next == next;
    } else {
      assert (calls + next)[1..] == calls[1..] + next;
      AdmitsOn(capacity, refill, After(capacity, refill, true, buckets, calls[0]), calls[1..], next, key);
    }
  }

  lemma {:induction false} OneCall(
      capacity: real, refill: real, forgets: bool, buckets: map<string, Bucket>, c: Call, key: string)
    ensures AfterAll(capacity, refill, forgets, buckets, [c]) == After(capacity, refill, forgets, buckets, c)
    ensures Answers(capacity, refill, forgets, buckets, [c]) == [Allowed(capacity, refill, buckets, c)]
    ensures Admitted(capacity, refill, buckets, [c], key) == Share(capacity, refill, buckets, c, key)
  {
    assert [c][1..] == [];
  }

  // ---- a run in which forgetting shows, of the calls the routes make

  const LATER := IDLE_MS + 1

  function Unit(key: string, now: int): Call { Call(key, 1.0, now) }

  /** `n` calls for one key, all at one moment. */
  function Units(n: nat, now: int): seq<Call> {
    if n == 0 then [] else Units(n - 1, now) + [Unit("", now)]
  }

  function Name(n: nat): string { seq(n, i => 'k') }

  /** A call for each of `n` other keys, all at one moment. */
  function Others(n: nat): seq<Call> {
    if n == 0 then [] else Others(n - 1) + [Unit(Name(n), LATER)]
  }

  /** One key drained, left alone, and drained again once it may have been forgotten. */
  function DrainedTwice(capacity: nat): seq<Call> {
    Units(capacity, 0) + (Others(MAX_KEYS) + Units(capacity, LATER))
  }

  /** Calls as every route makes them: of cost one. */
  ghost predicate OfCostOne(calls: seq<Call>) {
    forall i :: 0 <= i < |calls| ==> calls[i].cost == 1.0
  }

  ghost predicate AllYes(answers: seq<bool>) {
    forall i :: 0 <= i < |answers| ==> answers[i]
  }

  lemma {:induction false} LevelAgain(capacity: real, refill: real, buckets: map<string, Bucket>, now: int)
    requires "" in buckets && buckets[""].updatedAt == now && buckets[""].tokens <= capacity
    ensures Level(capacity, refill, buckets, "", now) == buckets[""].tokens
  {
    assert Gain(refill, 0) == 0.0;
  }

  /** One call of cost one takes one token from the level, if it is there; no cleanup removes its own bucket. */
  lemma {:induction false} UnitTakes(
      capacity: real, refill: real, forgets: bool, buckets: map<string, Bucket>, now: int)
    requires 0.0 <= Level(capacity, refill, buckets, "", now) <= capacity
    ensures var level, after := Level(capacity, refill, buckets, "", now),
        After(capacity, refill, forgets, buckets, Unit("", now));
            && Allowed(capacity, refill, buckets, Unit("", now)) == (level >= 1.0)
            && Level(capacity, refill, after, "", now) == if level >= 1.0 then level - 1.0 else level
  {
    LevelAgain(capacity, refill, After(capacity, refill, forgets, buckets, Unit("", now)), now);
  }

  /** `n` calls are all admitted exactly when the level covers them, and then they take that much. */
  lemma {:induction false} UnitsTake(
      capacity: real, refill: real, forgets: bool, buckets: map<string, Bucket>, n: nat, now: int)
    requires 0.0 <= Level(capacity, refill, buckets, "", now) <= capacity
    ensures var level, after := Level(capacity, refill, buckets, "", now),
        AfterAll(capacity, refill, forgets, buckets, Units(n, now));
            && (AllYes(Answers(capacity, refill, forgets, buckets, Units(n, now))) <==> n as real <= level)
            && (n as real <= level ==> Level(capacity, refill, after, "", now) == level - n as real)
  {
    if n > 0 {
      UnitsTake(capacity, refill, forgets, buckets, n - 1, now);
      var before := AfterAll(capacity, refill, forgets, buckets, Units(n - 1, now));
      RunsOn(capacity, refill, forgets, buckets, Units(n - 1, now), [Unit("", now)]);
      AnswersOn(capacity, refill, forgets, buckets, Units(n - 1, now), [Unit("", now)]);
      OneCall(capacity, refill, forgets, before, Unit("", now), "");
      var first, last := Answers(capacity, refill, forgets, buckets, Units(n - 1, now)),
          Allowed(capacity, refill, before, Unit("", now));
      AllYesAppend(first, last);
      if (n - 1) as real <= Level(capacity, refill, buckets, "", now) {
        UnitTakes(capacity, refill, forgets, before, now);
      }
    }
  }

  lemma {:induction false} AllYesAppend(answers: seq<bool>, last: bool)
    ensures AllYes(answers + [last]) <==> AllYes(answers) && last
  {
    assert (answers + [last])[|answers|] == last;
    assert AllYes(answers + [last]) ==> forall i :: 0 <= i < |answers| ==> answers[i] == (answers + [last])[i];
  }

  /** They then admit as much. */
  lemma {:induction false} UnitsAdmit(capacity: real, refill: real, buckets: map<string, Bucket>, n: nat, now: int)
    requires 0.0 <= Level(capacity, refill, buckets, "", now) <= capacity
    requires n as real <= Level(capacity, refill, buckets, "", now)
    ensures Admitted(capacity, refill, buckets, Units(n, now), "") == n as real
  {
    if n > 0 {
      UnitsAdmit(capacity, refill, buckets, n - 1, now);
      UnitsTake(capacity, refill, true, buckets, n - 1, now);
      var before := AfterAll(capacity, refill, true, buckets, Units(n - 1, now));
      AdmitsOn(capacity, refill, buckets, Units(n - 1, now), [Unit("", now)], "");
      OneCall(capacity, refill, true, before, Unit("", now), "");
      UnitTakes(capacity, refill, true, before, now);
      assert Share(capacity, refill, before, Unit("", now), "") == 1.0;
    }
  }

  /** A new limiter after some calls for one key, no more than its capacity. */
  lemma {:induction false} FirstDrained(capacity: real, refill: real, forgets: bool, n: nat)
    requires 1 <= n && n as real <= capacity
    ensures AfterAll(capacity, refill, forgets, map[], Units(n, 0)) == map["" := Bucket(capacity - n as real, 0)]
  {
    var before := AfterAll(capacity, refill, forgets, map[], Units(n - 1, 0));
    RunsOn(capacity, refill, forgets, map[], Units(n - 1, 0), [Unit("", 0)]);
    OneCall(capacity, refill, forgets, before, Unit("", 0), "");
    if n > 1 {
      FirstDrained(capacity, refill, forgets, n - 1);
      LevelAgain(capacity, refill, before, 0);
    }
    OnlyBucket(capacity, refill, forgets, before, Unit("", 0));
  }

  /** A limiter that has seen one key forgets nothing. */
  lemma {:induction false} OnlyBucket(
      capacity: real, refill: real, forgets: bool, buckets: map<string, Bucket>, c: Call)
    requires buckets.Keys <= {c.key}
    ensures After(capacity, refill, forgets, buckets, c) == Spent(capacity, refill, buckets, c)
    ensures Spent(capacity, refill, buckets, c) == map[c.key := Spent(capacity, refill, buckets, c)[c.key]]
  {
    assert Spent(capacity, refill, buckets, c).Keys == {c.key};
  }

  /** One call for a new key. */
  lemma {:induction false} OtherFills(capacity: real, refill: real, forgets: bool, m: map<string, Bucket>, n: nat)
    requires 1.0 <= capacity && 0 < n <= MAX_KEYS && Name(n) !in m && |m| == n && "" in m && m[""] == Bucket(0.0, 0)
    requires forall i :: n <= i ==> Name(i) !in m
    ensures var after := After(capacity, refill, forgets, m, Unit(Name(n), LATER));
            && (forall i :: n < i ==> Name(i) !in after)
            && (n < MAX_KEYS || !forgets ==> "" in after && after[""] == Bucket(0.0, 0) && |after| == n + 1)
            && (n == MAX_KEYS && forgets ==> "" !in after)
  {
    assert |Name(n)| == n;
    var spent := Spent(capacity, refill, m, Unit(Name(n), LATER));
    assert |spent| == n + 1;
    forall i | n < i ensures Name(i) !in spent {
      assert |Name(i)| == i;
    }
  }

  /** Drained at 0, then `n` other keys: the drained one is forgotten when they are too many, if any ever is. */
  lemma {:induction false} OthersFill(capacity: real, refill: real, forgets: bool, drained: map<string, Bucket>, n: nat)
    requires 1.0 <= capacity && drained == map["" := Bucket(0.0, 0)] && n <= MAX_KEYS
    ensures var m := AfterAll(capacity, refill, forgets, drained, Others(n));
            && (forall i :: n < i ==> Name(i) !in m)
            && (n < MAX_KEYS || !forgets ==> "" in m && m[""] == Bucket(0.0, 0) && |m| == n + 1)
            && (n == MAX_KEYS && forgets ==> "" !in m)
  {
    if n > 0 {
      OthersFill(capacity, refill, forgets, drained, n - 1);
      var m := AfterAll(capacity, refill, forgets, drained, Others(n - 1));
      RunsOn(capacity, refill, forgets, drained, Others(n - 1), [Unit(Name(n), LATER)]);
      OneCall(capacity, refill, forgets, m, Unit(Name(n), LATER), "");
      OtherFills(capacity, refill, forgets, m, n);
    } else {
      forall i: nat | 0 < i ensures Name(i) !in drained {
        assert |Name(i)| == i;
      }
    }
  }

  lemma {:induction false} OthersAdmitNothing(capacity: real, refill: real, buckets: map<string, Bucket>, n: nat)
    ensures Admitted(capacity, refill, buckets, Others(n), "") == 0.0
  {
    if n > 0 {
      OthersAdmitNothing(capacity, refill, buckets, n - 1);
      var before := AfterAll(capacity, refill, true, buckets, Others(n - 1));
      AdmitsOn(capacity, refill, buckets, Others(n - 1), [Unit(Name(n), LATER)], "");
      OneCall(capacity, refill, true, before, Unit(Name(n), LATER), "");
      assert |Name(n)| == n;
    }
  }

  /** The limiter before the second draining: the key is forgotten, or has what the time has brought. */
  lemma {:induction false} BeforeSecondDraining(capacity: nat, refill: real, forgets: bool)
    requires 1 <= capacity && 0.0 <= refill && !CoversEviction(capacity as real, refill)
    ensures var c := capacity as real;
            var m := AfterAll(c, refill, forgets, map["" := Bucket(0.0, 0)], Others(MAX_KEYS));
            if forgets then Level(c, refill, m, "", LATER) == c
            else 0.0 <= Level(c, refill, m, "", LATER) < c
  {
    var c := capacity as real;
    var m := AfterAll(c, refill, forgets, map["" := Bucket(0.0, 0)], Others(MAX_KEYS));
    OthersFill(c, refill, forgets, map["" := Bucket(0.0, 0)], MAX_KEYS);
    GainGrows(0.0, refill, LATER);
    assert Gain(refill, 0) == 0.0;
  }

  /** The second draining succeeds in full only when the key was forgotten. */
  lemma {:induction false} SecondDraining(capacity: nat, refill: real, forgets: bool)
    requires 1 <= capacity && 0.0 <= refill && !CoversEviction(capacity as real, refill)
    ensures var c, drained, rest := capacity as real, map["" := Bucket(0.0, 0)],
        Others(MAX_KEYS) + Units(capacity, LATER);
            && Answers(c, refill, forgets, map[], DrainedTwice(capacity))
               == Answers(c, refill, forgets, map[], Units(capacity, 0))
                 + Answers(c, refill, forgets, drained, Others(MAX_KEYS))
                  + Answers(c, refill, forgets, AfterAll(c, refill, forgets, drained, Others(MAX_KEYS)),
                    Units(capacity, LATER))
            && (AllYes(Answers(c, refill, forgets, AfterAll(c, refill, forgets, drained, Others(MAX_KEYS)),
                  Units(capacity, LATER)))
                <==> forgets)
  {
    var c, drained := capacity as real, map["" := Bucket(0.0, 0)];
    var after := AfterAll(c, refill, forgets, drained, Others(MAX_KEYS));
    FirstDrained(c, refill, forgets, capacity);
    AnswersOn(c, refill, forgets, map[], Units(capacity, 0), Others(MAX_KEYS) + Units(capacity, LATER));
    AnswersOn(c, refill, forgets, drained, Others(MAX_KEYS), Units(capacity, LATER));
    BeforeSecondDraining(capacity, refill, forgets);
    UnitsTake(c, refill, forgets, after, capacity, LATER);
  }

  lemma {:induction false} AnswersLength(
      capacity: real, refill: real, forgets: bool, buckets: map<string, Bucket>, calls: seq<Call>)
    ensures |Answers(capacity, refill, forgets, buckets, calls)| == |calls|
    decreases |calls|
  {
    if calls != [] {
      AnswersLength(capacity, refill, forgets, After(capacity, refill, forgets, buckets, calls[0]), calls[1..]);
    }
  }

  /** When the rate does not cover eviction, a limiter that forgets answers otherwise than one that does not. */
  lemma {:induction false} ForgettingShows(capacity: nat, refill: real)
    requires 1 <= capacity && 0.0 <= refill && !CoversEviction(capacity as real, refill)
    ensures var c := capacity as real;
            Answers(c, refill, true, map[], DrainedTwice(capacity))
              != Answers(c, refill, false, map[], DrainedTwice(capacity))
  {
    var c, drained := capacity as real, map["" := Bucket(0.0, 0)];
    var after, kept := AfterAll(c, refill, true, drained, Others(MAX_KEYS)),
        AfterAll(c, refill, false, drained, Others(MAX_KEYS));
    SecondDraining(capacity, refill, true);
    SecondDraining(capacity, refill, false);
    var a1, b1 := Answers(c, refill, true, map[], Units(capacity, 0)),
        Answers(c, refill, false, map[], Units(capacity, 0));
    var a2, b2 := Answers(c, refill, true, drained, Others(MAX_KEYS)),
        Answers(c, refill, false, drained, Others(MAX_KEYS));
    var a3, b3 := Answers(c, refill, true, after, Units(capacity, LATER)),
        Answers(c, refill, false, kept, Units(capacity, LATER));
    AnswersLength(c, refill, true, map[], Units(capacity, 0));
    AnswersLength(c, refill, false, map[], Units(capacity, 0));
    AnswersLength(c, refill, true, drained, Others(MAX_KEYS));
    AnswersLength(c, refill, false, drained, Others(MAX_KEYS));
    TailsDiffer(a1 + a2, a3, b1 + b2, b3);
  }

  lemma {:induction false} TailsDiffer<T>(a: seq<T>, x: seq<T>, b: seq<T>, y: seq<T>)
    requires |a| == |b| && x != y
    ensures a + x != b + y
  {
    assert (a + x)[|a|..] == x && (b + y)[|b|..] == y;
  }

  /** And it admits the capacity twice over. */
  lemma {:induction false} ForgettingAdmitsTwice(capacity: nat, refill: real)
    requires 1 <= capacity && 0.0 <= refill && !CoversEviction(capacity as real, refill)
    ensures Admitted(capacity as real, refill, map[], DrainedTwice(capacity), "") == (capacity + capacity) as real
  {
    var c, drained := capacity as real, map["" := Bucket(0.0, 0)];
    var after := AfterAll(c, refill, true, drained, Others(MAX_KEYS));
    assert Gain(refill, 0) == 0.0;
    UnitsAdmit(c, refill, map[], capacity, 0);
    FirstDrained(c, refill, true, capacity);
    AdmitsOn(c, refill, map[], Units(capacity, 0), Others(MAX_KEYS) + Units(capacity, LATER), "");
    AdmitsOn(c, refill, drained, Others(MAX_KEYS), Units(capacity, LATER), "");
    OthersAdmitNothing(c, refill, drained, MAX_KEYS);
    BeforeSecondDraining(capacity, refill, true);
    UnitsAdmit(c, refill, after, capacity, LATER);
  }

  lemma {:induction false} UnitsAreUnits(n: nat, now: int)
    ensures forall i :: 0 <= i < |Units(n, now)| ==> Units(n, now)[i] == Unit("", now)
  {
    if n > 0 {
      UnitsAreUnits(n - 1, now);
    }
  }

  lemma {:induction false} OthersAreUnits(n: nat)
    ensures forall i :: 0 <= i < |Others(n)| ==> Others(n)[i].cost == 1.0 && Others(n)[i].now == LATER
  {
    if n > 0 {
      OthersAreUnits(n - 1);
    }
  }

  lemma {:induction false} DrainedTwiceInOrder(capacity: nat)
    ensures var calls := DrainedTwice(capacity); InOrder(calls, 0) && OfCostOne(calls) && AllBy(calls, LATER)
  {
    var first, others, last := Units(capacity, 0), Others(MAX_KEYS), Units(capacity, LATER);
    UnitsAreUnits(capacity, 0);
    OthersAreUnits(MAX_KEYS);
    UnitsAreUnits(capacity, LATER);
    var calls := DrainedTwice(capacity);
    forall i | 0 <= i < |calls|
      ensures calls[i].cost == 1.0 && calls[i].now == if i < |first| then 0 else LATER
    {
      assert i < |first| ==> calls[i] == first[i];
      assert |first| <= i < |first| + |others| ==> calls[i] == others[i - |first|];
      assert |first| + |others| <= i ==> calls[i] == last[i - |first| - |others|];
    }
  }

  /** At a rate that covers eviction, forgetting idle keys cannot be told from keeping them, whatever the calls cost. */
  lemma {:induction false} EvictionIsInvisible(capacity: real, refill: real, calls: seq<Call>)
    requires 0.0 <= capacity && 0.0 <= refill && CoversEviction(capacity, refill) && InOrder(calls, 0)
    ensures Answers(capacity, refill, true, map[], calls) == Answers(capacity, refill, false, map[], calls)
  {
    SameAnswers(capacity, refill, map[], map[], calls, 0);
  }

  /** And no call of cost one can tell, if and only if a key refills in the time it takes to be forgotten. */
  lemma {:induction false} EvictionIsInvisibleExactlyWhen(capacity: nat, refill: real)
    requires 1 <= capacity && 0.0 <= refill
    ensures var c := capacity as real;
            (forall calls :: InOrder(calls, 0) && OfCostOne(calls) ==>
               Answers(c, refill, true, map[], calls) == Answers(c, refill, false, map[], calls))
            <==> CoversEviction(c, refill)
  {
    var c := capacity as real;
    if CoversEviction(c, refill) {
      forall calls | InOrder(calls, 0) && OfCostOne(calls)
        ensures Answers(c, refill, true, map[], calls) == Answers(c, refill, false, map[], calls)
      {
        EvictionIsInvisible(c, refill, calls);
      }
    } else {
      ForgettingShows(capacity, refill);
      DrainedTwiceInOrder(capacity);
    }
  }

  /** The bound the two constructor arguments suggest holds of every run of such calls, if and only if the same. */
  lemma {:induction false} NominalBoundExactlyWhen(capacity: nat, refill: real)
    requires 1 <= capacity && 0.0 <= refill
    ensures var c := capacity as real;
            (forall calls, key, until :: InOrder(calls, 0) && OfCostOne(calls) && 0 <= until && AllBy(calls, until) ==>
               Admitted(c, refill, map[], calls, key) <= c + Gain(refill, until))
            <==> CoversEviction(c, refill)
  {
    var c := capacity as real;
    if CoversEviction(c, refill) {
      forall calls, key, until | InOrder(calls, 0) && OfCostOne(calls) && 0 <= until && AllBy(calls, until)
        ensures Admitted(c, refill, map[], calls, key) <= c + Gain(refill, until)
      {
        WindowBound(c, refill, refill, map[], calls, key, 0, until);
      }
    } else {
      ForgettingAdmitsTwice(capacity, refill);
      DrainedTwiceInOrder(capacity);
      assert Admitted(c, refill, map[], DrainedTwice(capacity), "") > c + Gain(refill, LATER);
    }
  }

  /** The limiters shared by the routes: all but the two for magic links refill before they are forgotten. */
  lemma {:induction false} LimitersOfTheCore()
    ensures CoversEviction(5.0, 1.0 / 60.0)
    ensures CoversEviction(60.0, 10.0)
    ensures CoversEviction(120.0, 20.0)
    ensures CoversEviction(5.0, 5.0 / 60.0)
    ensures !CoversEviction(5.0, 1.0 / 120.0)
    ensures !CoversEviction(3.0, 1.0 / 300.0)
  {
  }

  /** The limiter of the webhook routes does. */
  lemma {:induction false} WebhookLimiter()
    ensures CoversEviction(10.0, 0.1)
  {
  }

  /** The limiter of installs does not. */
  lemma {:induction false} InstallLimiter()
    ensures !CoversEviction(6.0, 1.0 / 120.0)
  {
  }
}
