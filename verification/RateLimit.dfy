/**
 The per-key token bucket with eviction of idle keys (middleware.go), over real numbers and a clock that never goes
 back. Times are in seconds.
 */
module RateLimit {
  import opened Options
  import opened Rates

  datatype Config = Config(rate: real, burst: nat, idleTTL: real) {
    predicate Valid() {
      rate > 0.0 && burst >= 1 && idleTTL > 0.0
    }
  }

  datatype Bucket = Bucket(tokens: real, lastRefill: real, lastAccess: real)

  /** The sender a request is counted against. */
  datatype SenderID = SenderID(id: int)

  type Buckets = map<SenderID, Bucket>

  function Min(x: real, y: real): real {
    if x < y then x else y
  }

  // --------------------------------------------------------------------------
  // The steps

  /** The tokens a bucket has at a later time, before anything is taken. */
  function Level(c: Config, b: Bucket, now: real): real {
    Min(c.burst as real, b.tokens + Gain(c.rate, b.lastRefill, now))
  }

  /** One request of a key: its bucket afterwards, and whether it may proceed. A new key starts with a full bucket. */
  function Take(c: Config, b: Option<Bucket>, now: real): (Bucket, bool) {
    match b
    case None => (Bucket(c.burst as real - 1.0, now, now), true)
    case Some(last) =>
      var level := Level(c, last, now);
      if level < 1.0 then (Bucket(level, now, now), false) else (Bucket(level - 1.0, now, now), true)
  }

  function Get(buckets: Buckets, key: SenderID): Option<Bucket> {
    if key in buckets then Some(buckets[key]) else None
  }

  predicate Expired(c: Config, b: Bucket, now: real) {
    now - b.lastAccess > c.idleTTL
  }

  function Evicted(c: Config, buckets: Buckets, now: real): Buckets {
    map key | key in buckets && !Expired(c, buckets[key], now) :: buckets[key]
  }

  lemma IsEvicted(c: Config, was: Buckets, buckets: Buckets, now: real)
    requires buckets.Keys <= was.Keys && forall k | k in buckets :: buckets[k] == was[k]
    requires forall k | k in was :: k in buckets <==> !Expired(c, was[k], now)
    ensures buckets == Evicted(c, was, now)
  {
  }

  datatype Event = Allow(key: SenderID, now: real) | Evict(now: real)

  /** The buckets after an event, and the answers it gives: one for a request, none for an eviction. */
  function Step(c: Config, buckets: Buckets, e: Event): (Buckets, seq<bool>) {
    match e
    case Allow(key, now) =>
      var (b, ok) := Take(c, Get(buckets, key), now);
      (buckets[key := b], [ok])
    case Evict(now) => (Evicted(c, buckets, now), [])
  }

  function After(c: Config, buckets: Buckets, events: seq<Event>): Buckets {
    if events == [] then buckets else Step(c, After(c, buckets, events[..|events| - 1]), events[|events| - 1]).0
  }

  function Answers(c: Config, buckets: Buckets, events: seq<Event>): seq<bool>
    decreases |events|
  {
    if events == [] then []
    else
      var (buckets', answers) := Step(c, buckets, events[0]);
      answers + Answers(c, buckets', events[1..])
  }

  /** The clock never goes back, from start on. */
  predicate Timed(start: real, events: seq<Event>) {
    && (forall i | 0 <= i < |events| :: start <= events[i].now)
    && (forall i, j | 0 <= i < j < |events| :: events[i].now <= events[j].now)
  }

  function NoEvictions(events: seq<Event>): seq<Event> {
    if events == [] then []
    else (if events[0].Allow? then [events[0]] else []) + NoEvictions(events[1..])
  }

  class RateLimiter {
    var buckets: Buckets
    const config: Config

    /** Non-positive rate, burst and idleTTL mean 1, 1, and ten refills but at least a minute. */
    constructor (rate: real, burst: int, idleTTL: real)
      ensures config.Valid() && buckets == map[]
      ensures config.rate == (if rate <= 0.0 then 1.0 else rate)
      ensures config.burst == (if burst <= 0 then 1 else burst)
      ensures config.idleTTL == if idleTTL <= 0.0 then DefaultTTL(config.rate) else idleTTL
    {
      var r := if rate <= 0.0 then 1.0 else rate;
      var b := if burst <= 0 then 1 else burst;
      var ttl := idleTTL;
      if ttl <= 0.0 {
        ttl := 10.0 / r;
        if ttl < 60.0 {
          ttl := 60.0;
        }
      }
      config, buckets := Config(r, b, ttl), map[];
    }

    method EvictExpired(now: real)
      modifies this
      ensures buckets == Evicted(config, old(buckets), now)
      ensures forall k :: k in buckets <==> k in old(buckets) && now - old(buckets)[k].lastAccess <= config.idleTTL
      ensures forall k | k in buckets :: buckets[k] == old(buckets)[k]
    {
      hide Evicted;
      ghost var was := buckets;
      var keys := buckets.Keys;
      while keys != {}
        invariant keys <= buckets.Keys <= was.Keys
        invariant forall k | k in buckets :: buckets[k] == was[k]
        invariant forall k | k in buckets :: k in keys || !Expired(config, was[k], now)
        invariant forall k | k in was :: k in buckets || Expired(config, was[k], now)
        decreases keys
      {
        var key :| key in keys;
        if now - buckets[key].lastAccess > config.idleTTL {
          buckets := buckets - {key};
        }
        keys := keys - {key};
      }
      IsEvicted(config, was, buckets, now);
    }

    method Allow(key: SenderID, now: real) returns (ok: bool)
      modifies this
      ensures (buckets, [ok]) == Step(config, old(buckets), Event.Allow(key, now))
    {
      if key !in buckets {
        buckets := buckets[key := Bucket(config.burst as real - 1.0, now, now)];
        return true;
      }
      var b := buckets[key];
      var elapsed := now - b.lastRefill;
      b := b.(tokens := Min(config.burst as real, b.tokens + elapsed * config.rate));
      b := b.(lastRefill := now, lastAccess := now);
      assert b == Bucket(Level(config, old(buckets)[key], now), now, now);
      if b.tokens < 1.0 {
        buckets := buckets[key := b];
        return false;
      }
      b := b.(tokens := b.tokens - 1.0);
      buckets := buckets[key := b];
      return true;
    }
  }

  function DefaultTTL(rate: real): real
    requires rate > 0.0
  {
    if 10.0 / rate < 60.0 then 60.0 else 10.0 / rate
  }

  // --------------------------------------------------------------------------
  // Evictions do not show when a key is idle long enough for a full refill

  /** A bucket that requests up to time now can have left. */
  predicate Sane(c: Config, b: Bucket, now: real) {
    0.0 <= b.tokens <= c.burst as real && b.lastRefill == b.lastAccess <= now
  }

  /** The evicting limiter lacks only buckets that have been idle for longer than the TTL. */
  ghost predicate Similar(c: Config, evicting: Buckets, keeping: Buckets, now: real) {
    && (forall k | k in keeping :: Sane(c, keeping[k], now))
    && (forall k | k in evicting :: k in keeping && evicting[k] == keeping[k])
    && (forall k | k in keeping && k !in evicting :: Expired(c, keeping[k], now))
  }

  lemma Scale(x: real, y: real, rate: real)
    requires x <= y && rate > 0.0
    ensures x * rate <= y * rate
  {
  }

  lemma IdleIsFull(c: Config, b: Bucket, now: real)
    requires c.Valid() && c.idleTTL * c.rate >= c.burst as real && Sane(c, b, now) && Expired(c, b, now)
    ensures Level(c, b, now) == c.burst as real
  {
    Scale(c.idleTTL, now - b.lastRefill, c.rate);
  }

  /** A bucket idle for the TTL answers like a new one. */
  lemma IdleIsNew(c: Config, b: Bucket, now: real)
    requires c.Valid() && c.idleTTL * c.rate >= c.burst as real && Sane(c, b, now) && Expired(c, b, now)
    ensures Take(c, Some(b), now) == Take(c, None, now)
  {
    hide Level;
    IdleIsFull(c, b, now);
  }

  lemma LevelInRange(c: Config, b: Bucket, now: real)
    requires c.Valid() && Sane(c, b, now)
    ensures 0.0 <= Level(c, b, now) <= c.burst as real
  {
    hide Gain;
    Gains(c.rate, b.lastRefill, now, now);
  }

  lemma TakeIsSane(c: Config, b: Option<Bucket>, now: real)
    requires c.Valid() && (b.Some? ==> Sane(c, b.value, now))
    ensures Sane(c, Take(c, b, now).0, now)
  {
    if b.Some? {
      LevelInRange(c, b.value, now);
      hide Level;
    }
  }

  lemma StepKeepsSimilar(c: Config, evicting: Buckets, keeping: Buckets, now: real, e: Event)
    requires c.Valid() && c.idleTTL * c.rate >= c.burst as real
    requires Similar(c, evicting, keeping, now) && now <= e.now
    ensures e.Evict? ==> Similar(c, Step(c, evicting, e).0, keeping, e.now)
    ensures e.Allow? ==> Step(c, evicting, e).1 == Step(c, keeping, e).1
    ensures e.Allow? ==> Similar(c, Step(c, evicting, e).0, Step(c, keeping, e).0, e.now)
  {
    hide Take;
    if e.Allow? {
      if e.key in keeping {
        TakeIsSane(c, Some(keeping[e.key]), e.now);
        if e.key !in evicting {
          IdleIsNew(c, keeping[e.key], e.now);
        }
      } else {
        TakeIsSane(c, None, e.now);
      }
    }
  }

  lemma {:induction false} SimilarAnswers(c: Config, evicting: Buckets, keeping: Buckets, now: real, events: seq<Event>)
    requires c.Valid() && c.idleTTL * c.rate >= c.burst as real
    requires Similar(c, evicting, keeping, now) && Timed(now, events)
    ensures Answers(c, evicting, events) == Answers(c, keeping, NoEvictions(events))
    decreases |events|
  {
    hide Similar, Step;
    if events != [] {
      var e, rest := events[0], events[1..];
      StepKeepsSimilar(c, evicting, keeping, now, e);
      assert Timed(e.now, rest);
      if e.Allow? {
        SimilarAnswers(c, Step(c, evicting, e).0, Step(c, keeping, e).0, e.now, rest);
        assert NoEvictions(events)[0] == e && NoEvictions(events)[1..] == NoEvictions(rest);
      } else {
        SimilarAnswers(c, Step(c, evicting, e).0, keeping, e.now, rest);
        EvictAnswersNothing(c, evicting, e);
        assert NoEvictions(events) == [] + NoEvictions(rest) == NoEvictions(rest);
      }
    }
  }

  lemma EvictAnswersNothing(c: Config, buckets: Buckets, e: Event)
    requires e.Evict?
    ensures Step(c, buckets, e).1 == []
  {
  }

  // --------------------------------------------------------------------------
  // ... and otherwise they do

  function Burst(key: SenderID, now: real, n: nat): seq<Event> {
    seq(n, i => Event.Allow(key, now))
  }

  function Yes(n: nat): seq<bool> {
    seq(n, i => true)
  }

  lemma {:induction false} AnswersAppend(c: Config, buckets: Buckets, a: seq<Event>, b: seq<Event>)
    ensures Answers(c, buckets, a + b) == Answers(c, buckets, a) + Answers(c, After(c, buckets, a), b)
    decreases |a|
  {
    hide Step;
    if a == [] {
      assert a + b == b;
    } else {
      var buckets' := Step(c, buckets, a[0]).0;
      assert (a + b)[1..] == a[1..] + b;
      AnswersAppend(c, buckets', a[1..], b);
      AfterCons(c, buckets, a);
    }
  }

  lemma {:induction false} AfterCons(c: Config, buckets: Buckets, events: seq<Event>)
    requires events != []
    ensures After(c, buckets, events) == After(c, Step(c, buckets, events[0]).0, events[1..])
    decreases |events|
  {
    hide Step;
    if |events| == 1 {
      assert events[..0] == [];
    } else {
      AfterCons(c, buckets, events[..|events| - 1]);
      assert events[..|events| - 1][1..] == events[1..][..|events| - 2];
    }
  }

  /** Requests at one moment succeed exactly while whole tokens last; here all n of them, taking n tokens. */
  lemma {:induction false} BurstSucceeds(c: Config, buckets: Buckets, key: SenderID, now: real, n: nat)
    requires c.Valid() && key in buckets && buckets[key].lastRefill == now
    requires n as real <= buckets[key].tokens <= c.burst as real
    ensures Answers(c, buckets, Burst(key, now, n)) == Yes(n)
    ensures After(c, buckets, Burst(key, now, n))
            == if n == 0 then buckets else buckets[key := Bucket(buckets[key].tokens - n as real, now, now)]
    decreases n
  {
    hide Gain;
    if n > 0 {
      Gains(c.rate, now, now, now);
      var events, e := Burst(key, now, n), Event.Allow(key, now);
      assert events[1..] == Burst(key, now, n - 1);
      var b := Bucket(buckets[key].tokens - 1.0, now, now);
      assert Level(c, buckets[key], now) == buckets[key].tokens;
      assert Step(c, buckets, e) == (buckets[key := b], [true]);
      BurstSucceeds(c, buckets[key := b], key, now, n - 1);
      AfterCons(c, buckets, events);
      assert [true] + Yes(n - 1) == Yes(n);
    }
  }

  /** A new key gets its whole burst at once. */
  lemma NewKeyGetsBurst(c: Config, buckets: Buckets, key: SenderID, now: real)
    requires c.Valid() && key !in buckets
    ensures Answers(c, buckets, Burst(key, now, c.burst)) == Yes(c.burst)
    ensures After(c, buckets, Burst(key, now, c.burst)) == buckets[key := Bucket(0.0, now, now)]
  {
    hide Gain;
    var events, full := Burst(key, now, c.burst), buckets[key := Bucket(c.burst as real - 1.0, now, now)];
    assert Step(c, buckets, events[0]) == (full, [true]);
    assert events[1..] == Burst(key, now, c.burst - 1);
    BurstSucceeds(c, full, key, now, c.burst - 1);
    AfterCons(c, buckets, events);
    assert [true] + Yes(c.burst - 1) == Yes(c.burst);
  }

  /** Fewer than n tokens do not let n requests at one moment through. */
  lemma {:induction false} BurstFails(c: Config, buckets: Buckets, key: SenderID, now: real, n: nat)
    requires c.Valid() && key in buckets && buckets[key].lastRefill <= now && n > 0
    requires Level(c, buckets[key], now) < n as real
    ensures Answers(c, buckets, Burst(key, now, n)) != Yes(n)
    decreases n
  {
    hide Gain;
    Gains(c.rate, now, now, now);
    var events, level := Burst(key, now, n), Level(c, buckets[key], now);
    assert events[1..] == Burst(key, now, n - 1);
    if level < 1.0 {
      assert Answers(c, buckets, events)[0] == false;
    } else {
      var buckets' := buckets[key := Bucket(level - 1.0, now, now)];
      assert Step(c, buckets, events[0]) == (buckets', [true]);
      BurstFails(c, buckets', key, now, n - 1);
      assert Yes(n)[1..] == Yes(n - 1);
      assert Answers(c, buckets, events)[1..] == Answers(c, buckets', events[1..]);
    }
  }

  lemma {:induction false} NoEvictionsAppend(a: seq<Event>, b: seq<Event>)
    ensures NoEvictions(a + b) == NoEvictions(a) + NoEvictions(b)
    decreases |a|
  {
    if a == [] {
      assert a + b == b;
    } else {
      assert (a + b)[0] == a[0] && (a + b)[1..] == a[1..] + b;
      NoEvictionsAppend(a[1..], b);
      var head: seq<Event> := if a[0].Allow? then [a[0]] else [];
      assert head + (NoEvictions(a[1..]) + NoEvictions(b)) == (head + NoEvictions(a[1..])) + NoEvictions(b);
    }
  }

  lemma {:induction false} NoEvictionsInBurst(key: SenderID, now: real, n: nat)
    ensures NoEvictions(Burst(key, now, n)) == Burst(key, now, n)
    decreases n
  {
    if n > 0 {
      var events := Burst(key, now, n);
      assert events[1..] == Burst(key, now, n - 1);
      NoEvictionsInBurst(key, now, n - 1);
      assert events == [events[0]] + events[1..];
    }
  }

  /** A burst, an eviction as soon as the bucket is idle for the TTL, and another burst. */
  function Telltale(c: Config, key: SenderID, later: real): seq<Event> {
    Burst(key, 0.0, c.burst) + ([Evict(later)] + Burst(key, later, c.burst))
  }

  lemma EvictingAnswersYes(c: Config, key: SenderID, later: real)
    requires c.Valid() && later > c.idleTTL
    ensures Answers(c, map[], Telltale(c, key, later)) == Yes(c.burst) + Yes(c.burst)
  {
    var first, second := Burst(key, 0.0, c.burst), Burst(key, later, c.burst);
    NewKeyGetsBurst(c, map[], key, 0.0);
    var used: Buckets := map[][key := Bucket(0.0, 0.0, 0.0)];
    AnswersAppend(c, map[], first, [Evict(later)] + second);
    AnswersAppend(c, used, [Evict(later)], second);
    assert [Evict(later)][1..] == [] && [Evict(later)][..0] == [];
    assert After(c, used, [Evict(later)]) == Evicted(c, used, later) == map[];
    NewKeyGetsBurst(c, map[], key, later);
  }

  lemma TelltaleWithoutEviction(c: Config, key: SenderID, later: real)
    ensures NoEvictions(Telltale(c, key, later)) == Burst(key, 0.0, c.burst) + Burst(key, later, c.burst)
  {
    var first, second := Burst(key, 0.0, c.burst), Burst(key, later, c.burst);
    NoEvictionsAppend(first, [Evict(later)] + second);
    NoEvictionsAppend([Evict(later)], second);
    NoEvictionsInBurst(key, 0.0, c.burst);
    NoEvictionsInBurst(key, later, c.burst);
    assert NoEvictions([Evict(later)]) == [];
    assert [] + second == second;
  }

  lemma KeepingAnswersNo(c: Config, key: SenderID, later: real)
    requires c.Valid() && later > 0.0 && later * c.rate < c.burst as real
    ensures Answers(c, map[], NoEvictions(Telltale(c, key, later))) != Yes(c.burst) + Yes(c.burst)
  {
    var first, second := Burst(key, 0.0, c.burst), Burst(key, later, c.burst);
    var used: Buckets := map[][key := Bucket(0.0, 0.0, 0.0)];
    NewKeyGetsBurst(c, map[], key, 0.0);
    BurstFails(c, used, key, later, c.burst);
    AnswersAppend(c, map[], first, second);
    TelltaleWithoutEviction(c, key, later);
    hide Answers, After, Burst, NoEvictions, Telltale, Yes;
    assert Answers(c, map[], first + second) == Yes(c.burst) + Answers(c, used, second);
    var yes, second' := Yes(c.burst), Answers(c, used, second);
    assert (yes + second')[|yes|..] == second' && (yes + yes)[|yes|..] == yes;
  }

  /** Events of one limiter come in the order of its clock. */
  ghost predicate InOrder(events: seq<Event>) {
    forall i, j | 0 <= i < j < |events| :: events[i].now <= events[j].now
  }

  ghost predicate EvictionIsInvisible(c: Config) {
    forall events | InOrder(events) :: Answers(c, map[], events) == Answers(c, map[], NoEvictions(events))
  }

  /**
   Evictions, at whatever moments, never change an answer exactly when a bucket refills completely within the idle
   TTL.
   */
  lemma EvictionIsInvisibleExactly(c: Config)
    requires c.Valid()
    ensures EvictionIsInvisible(c) <==> c.idleTTL * c.rate >= c.burst as real
  {
    if c.idleTTL * c.rate >= c.burst as real {
      forall events: seq<Event> | InOrder(events)
        ensures Answers(c, map[], events) == Answers(c, map[], NoEvictions(events))
      {
        if events != [] {
          SimilarAnswers(c, map[], map[], events[0].now, events);
        }
      }
    } else {
      var key, later := SenderID(0), 0.0;
      later := LaterThanTTL(c);
      EvictingAnswersYes(c, key, later);
      KeepingAnswersNo(c, key, later);
      TelltaleInOrder(c, key, later);
      hide Answers, NoEvictions, Telltale, InOrder;
    }
  }

  /** A moment when an idle bucket is evicted and not yet full. */
  lemma LaterThanTTL(c: Config) returns (later: real)
    requires c.Valid() && c.idleTTL * c.rate < c.burst as real
    ensures later > c.idleTTL && later * c.rate < c.burst as real
  {
    var full := c.burst as real / c.rate;
    assert full * c.rate == c.burst as real;
    if full <= c.idleTTL {
      Scale(full, c.idleTTL, c.rate);
      assert false;
    }
    later := (c.idleTTL + full) / 2.0;
    StrictScale(later, full, c.rate);
  }

  lemma TelltaleInOrder(c: Config, key: SenderID, later: real)
    requires later > 0.0
    ensures InOrder(Telltale(c, key, later))
  {
    var events := Telltale(c, key, later);
    assert forall i | 0 <= i < |events| :: events[i].now == if i < c.burst then 0.0 else later;
  }

  lemma StrictScale(x: real, y: real, rate: real)
    requires x < y && rate > 0.0
    ensures x * rate < y * rate
  {
  }

  /** With the default TTL that is so exactly for a burst of at most 10, or at most what a minute refills. */
  lemma DefaultTTLHidesEvictions(rate: real, burst: nat)
    requires rate > 0.0 && burst >= 1
    ensures EvictionIsInvisible(Config(rate, burst, DefaultTTL(rate)))
            <==> burst <= 10 || burst as real <= 60.0 * rate
  {
    EvictionIsInvisibleExactly(Config(rate, burst, DefaultTTL(rate)));
    assert 10.0 / rate * rate == 10.0;
    if 10.0 / rate < 60.0 {
      StrictScale(10.0 / rate, 60.0, rate);
    } else {
      Scale(60.0, 10.0 / rate, rate);
    }
  }

  // --------------------------------------------------------------------------
  // The rate is bounded

  /** How many requests of a key succeed among the events. */
  function Granted(c: Config, buckets: Buckets, events: seq<Event>, key: SenderID): nat
    decreases |events|
  {
    if events == [] then 0
    else
      var (buckets', answers) := Step(c, buckets, events[0]);
      (if events[0].Allow? && events[0].key == key && answers == [true] then 1 else 0)
      + Granted(c, buckets', events[1..], key)
  }

  /** What a key can take at a time; a key never seen, everything. */
  function Available(c: Config, buckets: Buckets, key: SenderID, now: real): real {
    if key in buckets then Level(c, buckets[key], now) else c.burst as real
  }

  predicate AllSane(c: Config, buckets: Buckets, now: real) {
    forall k | k in buckets :: Sane(c, buckets[k], now)
  }

  lemma LevelGrows(c: Config, b: Bucket, t: real, t': real)
    requires c.Valid() && Sane(c, b, t) && t <= t'
    ensures Level(c, b, t') <= Level(c, b, t) + Gain(c.rate, t, t')
  {
    hide Gain;
    Gains(c.rate, b.lastRefill, t, t');
    Gains(c.rate, t, t, t');
  }

  lemma {:induction false} StaysSane(c: Config, buckets: Buckets, t: real, e: Event)
    requires c.Valid() && AllSane(c, buckets, t) && t <= e.now
    ensures AllSane(c, Step(c, buckets, e).0, e.now)
  {
    hide Take;
    if e.Allow? {
      TakeIsSane(c, Get(buckets, e.key), e.now);
    }
  }

  /** Requests, and evictions if the TTL is long enough for a full refill. */
  predicate Harmless(c: Config, e: Event) {
    e.Allow? || c.idleTTL * c.rate >= c.burst as real
  }

  /** One event spends at most what the key has gained; a bucket that is evicted was full. */
  lemma StepSpends(c: Config, buckets: Buckets, key: SenderID, t: real, e: Event)
    requires c.Valid() && AllSane(c, buckets, t) && t <= e.now && Harmless(c, e)
    ensures var granted := if e.Allow? && e.key == key && Step(c, buckets, e).1 == [true] then 1.0 else 0.0;
            granted + Available(c, Step(c, buckets, e).0, key, e.now)
            <= Available(c, buckets, key, t) + Gain(c.rate, t, e.now)
  {
    Gains(c.rate, t, t, e.now);
    Gains(c.rate, e.now, e.now, e.now);
    if key in buckets {
      LevelGrows(c, buckets[key], t, e.now);
      LevelInRange(c, buckets[key], e.now);
      if e.Evict? && Expired(c, buckets[key], e.now) {
        IdleIsFull(c, buckets[key], e.now);
      }
    }
    hide Gain;
  }

  lemma AvailableInRange(c: Config, buckets: Buckets, key: SenderID, now: real)
    requires c.Valid() && AllSane(c, buckets, now)
    ensures 0.0 <= Available(c, buckets, key, now) <= c.burst as real
  {
    if key in buckets {
      LevelInRange(c, buckets[key], now);
    }
  }

  lemma {:induction false} GrantedWithin(c: Config, buckets: Buckets, events: seq<Event>, key: SenderID,
                                         from: real, to: real)
    requires c.Valid() && AllSane(c, buckets, from) && Timed(from, events) && from <= to
    requires forall e | e in events :: Harmless(c, e) && e.now <= to
    ensures Granted(c, buckets, events, key) as real <= Available(c, buckets, key, from) + Gain(c.rate, from, to)
    decreases |events|
  {
    hide Available, Step, AllSane, Gain;
    if events == [] {
      Gains(c.rate, from, from, to);
      AvailableInRange(c, buckets, key, from);
    } else {
      var e, rest := events[0], events[1..];
      assert e in events;
      Gains(c.rate, from, e.now, to);
      StepSpends(c, buckets, key, from, e);
      StaysSane(c, buckets, from, e);
      GrantedWithin(c, Step(c, buckets, e).0, rest, key, e.now, to);
    }
  }

  lemma {:induction false} AfterIsSane(c: Config, events: seq<Event>, now: real)
    requires c.Valid() && InOrder(events) && forall e | e in events :: e.now <= now
    ensures AllSane(c, After(c, map[], events), now)
    decreases |events|
  {
    if events != [] {
      var before, e := events[..|events| - 1], events[|events| - 1];
      assert forall x | x in before :: x.now <= e.now;
      AfterIsSane(c, before, e.now);
      StaysSane(c, After(c, map[], before), e.now, e);
    }
  }

  /**
   Over any run and any stretch of it, the successes of one key are at most the burst and what the rate allows for
   the stretch's time: without evictions, or with evictions at any moments if the TTL is long enough.
   */
  lemma RateIsBounded(c: Config, before: seq<Event>, events: seq<Event>, key: SenderID)
    requires c.Valid() && events != [] && InOrder(before + events)
    requires forall e | e in events :: Harmless(c, e)
    ensures Granted(c, After(c, map[], before), events, key) as real
            <= c.burst as real + Gain(c.rate, events[0].now, events[|events| - 1].now)
  {
    var from, to := events[0].now, events[|events| - 1].now;
    Halves(before, events);
    AfterIsSane(c, before, from);
    AvailableInRange(c, After(c, map[], before), key, from);
    hide Available, AllSane, After, InOrder, Gain, Granted;
    GrantedWithin(c, After(c, map[], before), events, key, from, to);
  }

  lemma Halves(before: seq<Event>, events: seq<Event>)
    requires events != [] && InOrder(before + events)
    ensures InOrder(before) && Timed(events[0].now, events)
    ensures forall e | e in before :: e.now <= events[0].now
    ensures forall e | e in events :: e.now <= events[|events| - 1].now
  {
    var all := before + events;
    assert forall i | 0 <= i < |before| :: all[i] == before[i];
    assert forall i | 0 <= i < |events| :: events[i] == all[|before| + i];
  }

  /** No stretch of any run, with evictions at any moments, has more successes than burst and rate allow. */
  ghost predicate RateIsKept(c: Config) {
    forall before, events, key :: StretchIsKept(c, before, events, key)
  }

  ghost predicate StretchIsKept(c: Config, before: seq<Event>, events: seq<Event>, key: SenderID) {
    events != [] && InOrder(before + events) ==>
      Granted(c, After(c, map[], before), events, key) as real
      <= c.burst as real + Gain(c.rate, events[0].now, events[|events| - 1].now)
  }

  /** The bound survives evictions exactly when a bucket refills completely within the idle TTL. */
  lemma RateIsKeptExactly(c: Config)
    requires c.Valid()
    ensures RateIsKept(c) <==> c.idleTTL * c.rate >= c.burst as real
  {
    if c.idleTTL * c.rate >= c.burst as real {
      forall before, events, key ensures StretchIsKept(c, before, events, key) {
        hide InOrder, After, Granted, Gain;
        if events != [] && InOrder(before + events) {
          RateIsBounded(c, before, events, key);
        }
      }
    } else {
      var key, later := SenderID(0), 0.0;
      later := LaterThanTTL(c);
      TelltaleBreaksRate(c, key, later);
    }
  }

  /** Between two bursts a little more than the TTL apart, an eviction lets twice the burst through. */
  lemma TelltaleBreaksRate(c: Config, key: SenderID, later: real)
    requires c.Valid() && later > c.idleTTL && later * c.rate < c.burst as real
    ensures !RateIsKept(c)
  {
    var events := Telltale(c, key, later);
    TelltaleIsGranted(c, key, later);
    TelltaleInOrder(c, key, later);
    TelltaleSpan(c, key, later);
    GainFromZero(c.rate, later);
    hide Telltale, Burst, Granted, InOrder, After, Gain;
    TooManyGranted(c, events, key);
    assert !StretchIsKept(c, [], events, key);
  }

  lemma GainFromZero(rate: real, to: real)
    ensures Gain(rate, 0.0, to) == to * rate
  {
  }

  lemma TooManyGranted(c: Config, events: seq<Event>, key: SenderID)
    requires events != [] && InOrder(events) && Granted(c, map[], events, key) == 2 * c.burst
    requires Gain(c.rate, events[0].now, events[|events| - 1].now) < c.burst as real
    ensures !StretchIsKept(c, [], events, key)
  {
    hide Granted, Gain, InOrder;
    assert [] + events == events && After(c, map[], []) == map[];
  }

  lemma TelltaleSpan(c: Config, key: SenderID, later: real)
    requires c.Valid()
    ensures var events := Telltale(c, key, later);
            events != [] && events[0].now == 0.0 && events[|events| - 1].now == later
            && forall e | e in events :: e.Allow? ==> e.key == key
  {
  }

  lemma TelltaleIsGranted(c: Config, key: SenderID, later: real)
    requires c.Valid() && later > c.idleTTL
    ensures Granted(c, map[], Telltale(c, key, later), key) == 2 * c.burst
  {
    EvictingAnswersYes(c, key, later);
    TelltaleSpan(c, key, later);
    assert Yes(c.burst) + Yes(c.burst) == Yes(2 * c.burst);
    hide Telltale, Answers, Granted;
    AllAreGranted(c, map[], Telltale(c, key, later), key, 2 * c.burst);
  }

  lemma {:induction false} AllAreGranted(c: Config, buckets: Buckets, events: seq<Event>, key: SenderID, n: nat)
    requires forall e | e in events :: e.Allow? ==> e.key == key
    requires Answers(c, buckets, events) == Yes(n)
    ensures Granted(c, buckets, events, key) == n
    decreases |events|
  {
    if events == [] {
      assert |Yes(n)| == 0;
    } else {
      var e, rest := events[0], events[1..];
      var (buckets', answers) := Step(c, buckets, e);
      assert forall x | x in rest :: x in events;
      assert e in events;
      assert answers + Answers(c, buckets', rest) == Yes(n);
      assert |answers| == if e.Allow? then 1 else 0;
      hide Step, Answers;
      assert Yes(n)[|answers|..] == Answers(c, buckets', rest) && Yes(n)[|answers|..] == Yes(n - |answers|);
      assert e.Allow? ==> answers == [true] by {
        assert e.Allow? ==> answers[0] == Yes(n)[0];
      }
      AllAreGranted(c, buckets', rest, key, n - |answers|);
    }
  }
}
