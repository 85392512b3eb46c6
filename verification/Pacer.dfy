/**
 The pacer every worker of a broadcast shares (broadcast.go): one token bucket whose burst is its rate, and a pause
 that a flood error extends. Real numbers, a clock that never goes back, times in seconds.
 */
module Pacer {
  import opened Options
  import opened Rates

  /** pausedUntil is None until the first pause: the source's zero time. */
  datatype State = State(rate: real, tokens: real, lastRefill: real, pausedUntil: Option<real>) {
    predicate Paused(now: real) {
      pausedUntil.Some? && now < pausedUntil.value
    }

    /** The tokens there would be at a later time. */
    function Level(now: real): real {
      var level := tokens + (now - lastRefill) * rate;
      if level < rate then level else rate
    }

    /** A state that events up to time now can lead to. */
    predicate Sane(now: real) {
      rate > 0.0 && 0.0 <= tokens <= rate && lastRefill <= now
    }
  }

  datatype Event = Reserve(now: real) | Pause(d: real, now: real)

  /** Granted, or how long to wait before asking again. */
  datatype Answer = Granted | Refused(wait: real)

  function Reserved(s: State, now: real): (State, Answer)
    requires s.rate > 0.0
  {
    if s.Paused(now) then (s, Refused(s.pausedUntil.value - now))
    else
      var level := s.Level(now);
      if level < 1.0 then (s.(tokens := level, lastRefill := now), Refused((1.0 - level) / s.rate))
      else (s.(tokens := level - 1.0, lastRefill := now), Granted)
  }

  function Extended(s: State, d: real, now: real): State {
    if s.pausedUntil.None? || now + d > s.pausedUntil.value then s.(pausedUntil := Some(now + d)) else s
  }

  function Next(s: State, e: Event): (s': State)
    requires s.rate > 0.0
    ensures s'.rate == s.rate
  {
    match e
    case Reserve(now) => Reserved(s, now).0
    case Pause(d, now) => Extended(s, d, now)
  }

  class BroadcastPacer {
    var tokens: real
    const rate: real
    const burst: real
    var lastRefill: real
    var pausedUntil: Option<real>

    ghost function Abs(): State
      reads this
    {
      State(rate, tokens, lastRefill, pausedUntil)
    }

    ghost predicate Valid()
      reads this
    {
      rate > 0.0 && burst == rate
    }

    constructor (rate: real, now: real)
      requires rate > 0.0
      ensures Valid() && Abs() == State(rate, rate, now, None)
    {
      this.tokens, this.rate, this.burst, lastRefill, pausedUntil := rate, rate, rate, now, None;
    }

    method TryReserve(now: real) returns (wait: real, ok: bool)
      requires Valid()
      modifies this
      ensures Valid() && Abs() == Reserved(old(Abs()), now).0
      ensures Reserved(old(Abs()), now).1 == if ok then Granted else Refused(wait)
    {
      ghost var s := Abs();
      if pausedUntil.Some? && now < pausedUntil.value {
        return pausedUntil.value - now, false;
      }
      var elapsed := now - lastRefill;
      var level := tokens + elapsed * rate;
      tokens := if level < burst then level else burst;
      assert tokens == s.Level(now);
      lastRefill := now;
      if tokens < 1.0 {
        var deficit := 1.0 - tokens;
        return deficit / rate, false;
      }
      tokens := tokens - 1.0;
      return 0.0, true;
    }

    method PauseFor(d: real, now: real)
      requires Valid()
      modifies this`pausedUntil
      ensures Valid() && Abs() == Extended(old(Abs()), d, now)
    {
      var until := now + d;
      if pausedUntil.None? || until > pausedUntil.value {
        pausedUntil := Some(until);
      }
    }
  }

  // --------------------------------------------------------------------------
  // Runs

  function Run(s: State, events: seq<Event>): (s': State)
    requires s.rate > 0.0
    ensures s'.rate == s.rate
  {
    if events == [] then s else Next(Run(s, events[..|events| - 1]), events[|events| - 1])
  }

  predicate InOrder(from: real, events: seq<Event>) {
    && (forall i | 0 <= i < |events| :: from <= events[i].now)
    && (forall i, j | 0 <= i < j < |events| :: events[i].now <= events[j].now)
  }

  predicate Grants(s: State, e: Event)
    requires s.rate > 0.0
  {
    e.Reserve? && Reserved(s, e.now).1.Granted?
  }

  lemma LevelInRange(s: State, now: real)
    requires s.Sane(now)
    ensures 0.0 <= s.Level(now) <= s.rate
  {
    Product(now - s.lastRefill, s.rate);
  }

  lemma NextIsSane(s: State, from: real, e: Event)
    requires s.Sane(from) && from <= e.now
    ensures Next(s, e).Sane(e.now)
  {
    LevelInRange(s, e.now);
  }

  lemma {:induction false} RunIsSane(s: State, from: real, events: seq<Event>, now: real)
    requires s.Sane(from) && InOrder(from, events) && from <= now && forall e | e in events :: e.now <= now
    ensures Run(s, events).Sane(now)
    decreases |events|
  {
    if events != [] {
      var before, e := events[..|events| - 1], events[|events| - 1];
      assert forall x | x in before :: x.now <= e.now;
      RunIsSane(s, from, before, e.now);
      NextIsSane(Run(s, before), e.now, e);
    }
  }

  /** In every run pausedUntil, once set, never decreases. */
  lemma {:induction false} PausesAreNeverShortened(s: State, before: seq<Event>, after: seq<Event>)
    requires s.rate > 0.0 && Run(s, before).pausedUntil.Some?
    ensures Run(s, before + after).pausedUntil.Some?
    ensures Run(s, before).pausedUntil.value <= Run(s, before + after).pausedUntil.value
    decreases |after|
  {
    var all := before + after;
    if after == [] {
      assert all == before;
    } else {
      assert all[..|all| - 1] == before + after[..|after| - 1];
      PausesAreNeverShortened(s, before, after[..|after| - 1]);
    }
  }

  lemma PauseExtends(s: State, before: seq<Event>, pause: Event)
    requires s.rate > 0.0 && pause.Pause?
    ensures var until := Run(s, before + [pause]).pausedUntil; until.Some? && until.value >= pause.now + pause.d
  {
    assert (before + [pause])[..|before|] == before;
  }

  lemma GrantIsAfterPause(s: State, e: Event)
    requires s.rate > 0.0
    ensures Grants(s, e) && s.pausedUntil.Some? ==> e.now >= s.pausedUntil.value
  {
  }

  /** A send is granted only after every pause asked for earlier in the run is over. */
  lemma {:induction false} PausesAreHonoured(s: State, before: seq<Event>, pause: Event, after: seq<Event>, e: Event)
    requires s.rate > 0.0 && pause.Pause?
    ensures Grants(Run(s, before + [pause] + after), e) ==> e.now >= pause.now + pause.d
  {
    hide Run, Grants;
    PauseExtends(s, before, pause);
    PausesAreNeverShortened(s, before + [pause], after);
    GrantIsAfterPause(Run(s, before + [pause] + after), e);
  }

  // --------------------------------------------------------------------------
  // The rate is bounded

  function GrantCount(s: State, events: seq<Event>): nat
    requires s.rate > 0.0
    decreases |events|
  {
    if events == [] then 0
    else (if Grants(s, events[0]) then 1 else 0) + GrantCount(Next(s, events[0]), events[1..])
  }

  lemma LevelGrows(s: State, from: real, to: real)
    requires s.Sane(from) && from <= to
    ensures s.Level(to) <= s.Level(from) + Gain(s.rate, from, to)
  {
    assert (to - s.lastRefill) * s.rate == (from - s.lastRefill) * s.rate + (to - from) * s.rate;
    Product(to - from, s.rate);
  }

  lemma StepSpends(s: State, from: real, e: Event)
    requires s.Sane(from) && from <= e.now
    ensures (if Grants(s, e) then 1.0 else 0.0) + Next(s, e).Level(e.now) <= s.Level(from) + Gain(s.rate, from, e.now)
  {
    LevelGrows(s, from, e.now);
    LevelInRange(s, e.now);
    var s' := Next(s, e);
    if s'.lastRefill == e.now {
      assert (e.now - s'.lastRefill) * s.rate == 0.0;
    }
  }

  lemma {:induction false} GrantsWithin(s: State, events: seq<Event>, from: real, to: real)
    requires s.Sane(from) && InOrder(from, events) && from <= to && forall e | e in events :: e.now <= to
    ensures GrantCount(s, events) as real <= s.Level(from) + Gain(s.rate, from, to)
    decreases |events|
  {
    hide Next, Grants, Gain;
    if events == [] {
      Gains(s.rate, from, from, to);
      LevelInRange(s, from);
    } else {
      var e, rest := events[0], events[1..];
      assert e in events;
      StepSpends(s, from, e);
      NextIsSane(s, from, e);
      Gains(s.rate, from, e.now, to);
      GrantsWithin(Next(s, e), rest, e.now, to);
    }
  }

  /** Over any run and any stretch of it, the sends granted are at most the burst and what the rate allows. */
  lemma RateIsBounded(rate: real, start: real, before: seq<Event>, events: seq<Event>)
    requires rate > 0.0 && events != [] && InOrder(start, before + events)
    ensures var s := State(rate, rate, start, None);
            GrantCount(Run(s, before), events) as real <= rate + Gain(rate, events[0].now, events[|events| - 1].now)
  {
    var s, from, to := State(rate, rate, start, None), events[0].now, events[|events| - 1].now;
    Halves(start, before, events);
    RunIsSane(s, start, before, from);
    RateIsBoundedFrom(Run(s, before), events, from, to);
    hide *;
  }

  lemma RateIsBoundedFrom(s: State, events: seq<Event>, from: real, to: real)
    requires s.Sane(from) && InOrder(from, events) && from <= to && forall e | e in events :: e.now <= to
    ensures GrantCount(s, events) as real <= s.rate + Gain(s.rate, from, to)
  {
    hide InOrder, Gain, GrantCount;
    LevelInRange(s, from);
    GrantsWithin(s, events, from, to);
  }

  lemma Halves(start: real, before: seq<Event>, events: seq<Event>)
    requires events != [] && InOrder(start, before + events)
    ensures InOrder(start, before) && InOrder(events[0].now, events) && start <= events[0].now
    ensures forall e | e in before :: e.now <= events[0].now
    ensures forall e | e in events :: e.now <= events[|events| - 1].now
  {
    var all := before + events;
    assert forall i | 0 <= i < |before| :: all[i] == before[i];
    assert forall i | 0 <= i < |events| :: events[i] == all[|before| + i];
  }

  // --------------------------------------------------------------------------
  // Whether waiting helps

  /**
   Asking again after exactly the returned wait, with nothing in between, is granted exactly when the rate is at
   least 1 and, if it was the pause that refused, a whole token is there when the pause ends.
   */
  lemma WaitingHelpsExactly(s: State, now: real)
    requires s.Sane(now) && Reserved(s, now).1.Refused?
    ensures var (s', refused) := Reserved(s, now);
            Grants(s', Reserve(now + refused.wait))
            <==> s.rate >= 1.0 && (s.Paused(now) ==> s.Level(s.pausedUntil.value) >= 1.0)
  {
    if !s.Paused(now) {
      var (s', refused) := Reserved(s, now);
      LevelInRange(s, now);
      assert (now + refused.wait - s'.lastRefill) == refused.wait;
      assert refused.wait * s.rate == 1.0 - s'.tokens;
      Product(1.0 - s'.tokens, 1.0 / s.rate);
    } else {
      LevelInRange(s, s.pausedUntil.value);
    }
  }

  /** What a bucket refused at now, with level tokens, can hold later on if nothing is granted. */
  ghost predicate StaysBelow(s: State, now: real, level: real) {
    now <= s.lastRefill && s.tokens <= level + Gain(s.rate, now, s.lastRefill)
  }

  lemma LevelBelow(s: State, now: real, level: real, t: real)
    requires s.rate > 0.0 && StaysBelow(s, now, level) && s.lastRefill <= t
    ensures s.Level(t) <= level + Gain(s.rate, now, t)
  {
    Gains(s.rate, now, s.lastRefill, t);
    assert (t - s.lastRefill) * s.rate == Gain(s.rate, s.lastRefill, t);
  }

  lemma DeficitIsUnpaid(rate: real, now: real, level: real, t: real)
    requires rate > 0.0 && now <= t < now + (1.0 - level) / rate
    ensures level + Gain(rate, now, t) < 1.0
  {
    var left := (1.0 - level) / rate - (t - now);
    assert left * rate > 0.0;
    assert left * rate == (1.0 - level) - (t - now) * rate;
  }

  lemma {:induction false} LowBucketStaysLow(s: State, now: real, level: real, events: seq<Event>, t: real)
    requires s.rate > 0.0 && s.lastRefill == now && s.tokens == level < 1.0
    requires InOrder(now, events) && (forall e | e in events :: e.now <= t) && now <= t < now + (1.0 - level) / s.rate
    ensures StaysBelow(Run(s, events), now, level) && Run(s, events).lastRefill <= t
    decreases |events|
  {
    if events != [] {
      var before, e := events[..|events| - 1], events[|events| - 1];
      assert forall x | x in before :: x.now <= e.now;
      LowBucketStaysLow(s, now, level, before, e.now);
      var s' := Run(s, before);
      LevelBelow(s', now, level, e.now);
      DeficitIsUnpaid(s.rate, now, level, e.now);
    }
  }

  /**
   The wait is the shortest that can help: after a refusal no reservation before the wait is over is granted, whatever
   other workers reserve and pause in the meantime.
   */
  lemma WaitIsShortest(s: State, now: real, events: seq<Event>, t: real)
    requires s.rate > 0.0 && s.lastRefill <= now && Reserved(s, now).1.Refused?
    requires InOrder(now, events) && (forall e | e in events :: e.now <= t)
    requires now <= t < now + Reserved(s, now).1.wait
    ensures !Grants(Run(Reserved(s, now).0, events), Reserve(t))
  {
    var after := Reserved(s, now).0;
    if s.Paused(now) {
      PausesAreNeverShortened(after, [], events);
      assert [] + events == events;
    } else {
      LowBucketStaysLow(after, now, after.tokens, events, t);
      LevelBelow(Run(after, events), now, after.tokens, t);
      DeficitIsUnpaid(s.rate, now, after.tokens, t);
    }
  }

  /** A pause shorter than the refill of a token: the promised wait is over and the send is refused again. */
  lemma ShortPauseRefusesAgain()
    ensures var used := Run(State(1.0, 1.0, 0.0, None), [Reserve(0.0), Pause(0.5, 0.0)]);
            Reserved(used, 0.0) == (used, Refused(0.5)) && !Grants(used, Reserve(0.5))
  {
    var s, events := State(1.0, 1.0, 0.0, None), [Reserve(0.0), Pause(0.5, 0.0)];
    assert events[..1] == [Reserve(0.0)] && [Reserve(0.0)][..0] == [];
    assert Run(s, [Reserve(0.0)]) == State(1.0, 0.0, 0.0, None);
    assert Run(s, events) == State(1.0, 0.0, 0.0, Some(0.5));
  }

  /** Broadcast pauses for whole seconds, so a pause that is still on ends at least a second after the last refill. */
  predicate WholeSecondPauses(events: seq<Event>) {
    forall e | e in events :: e.Pause? ==> e.d == 0.0 || e.d >= 1.0
  }

  predicate PauseIsLong(s: State, now: real) {
    s.Paused(now) ==> s.pausedUntil.value - s.lastRefill >= 1.0
  }

  lemma {:induction false} PausesStayLong(s: State, from: real, events: seq<Event>, now: real)
    requires s.Sane(from) && s.pausedUntil == None && InOrder(from, events) && WholeSecondPauses(events)
    requires from <= now && forall e | e in events :: e.now <= now
    ensures PauseIsLong(Run(s, events), now)
    decreases |events|
  {
    if events != [] {
      var before, e := events[..|events| - 1], events[|events| - 1];
      assert forall x | x in before :: x.now <= e.now;
      assert forall x | x in before :: x in events;
      assert e in events;
      PausesStayLong(s, from, before, e.now);
      RunIsSane(s, from, before, e.now);
    }
  }

  /** In every run with such pauses: asking again after the returned wait is granted exactly when the rate is at least 1. */
  lemma {:induction false} WaitingHelpsInBroadcasts(rate: real, start: real, events: seq<Event>, now: real)
    requires rate > 0.0 && InOrder(start, events) && WholeSecondPauses(events)
    requires start <= now && forall e | e in events :: e.now <= now
    requires Reserved(Run(State(rate, rate, start, None), events), now).1.Refused?
    ensures var (s, refused) := Reserved(Run(State(rate, rate, start, None), events), now);
            Grants(s, Reserve(now + refused.wait)) <==> rate >= 1.0
  {
    var s := Run(State(rate, rate, start, None), events);
    RunIsSane(State(rate, rate, start, None), start, events, now);
    PausesStayLong(State(rate, rate, start, None), start, events, now);
    WaitingHelpsExactly(s, now);
    if s.Paused(now) && rate >= 1.0 {
      LongPauseRefills(s, now);
    }
    hide Run, InOrder, Reserved, Grants;
  }

  lemma LongPauseRefills(s: State, now: real)
    requires s.Sane(now) && s.rate >= 1.0 && s.Paused(now) && PauseIsLong(s, now)
    ensures s.Level(s.pausedUntil.value) >= 1.0
  {
    Product(s.pausedUntil.value - s.lastRefill - 1.0, s.rate);
  }

  /** When Wait, left alone from now on, has its token: it asks, sleeps for the returned wait and asks again. */
  function WaitFrom(s: State, now: real, attempts: nat): Option<real>
    requires s.rate > 0.0
    decreases attempts
  {
    if attempts == 0 then None
    else
      match Reserved(s, now)
      case (_, Granted) => Some(now)
      case (s', Refused(wait)) => WaitFrom(s', now + wait, attempts - 1)
  }

  /** Below a rate of 1 Wait never returns; from 1 on three attempts are enough: a pause, a refill and the token. */
  lemma {:induction false} WaitReturnsExactly(s: State, now: real, attempts: nat)
    requires s.Sane(now) && attempts >= 3
    ensures WaitFrom(s, now, attempts).Some? <==> s.rate >= 1.0
  {
    if s.rate < 1.0 {
      WaitNeverReturns(s, now, attempts);
    } else {
      var (s', answer) := Reserved(s, now);
      if answer.Refused? {
        RefusalIsSane(s, now);
        TwoAttemptsAreEnough(s', now + answer.wait, attempts - 1, s.Paused(now));
      }
    }
  }

  lemma RefusalIsSane(s: State, now: real)
    requires s.Sane(now) && Reserved(s, now).1.Refused?
    ensures var (s', refused) := Reserved(s, now); refused.wait >= 0.0 && s'.Sane(now + refused.wait)
  {
    LevelInRange(s, now);
    if !s.Paused(now) {
      Product(1.0 - s.Level(now), 1.0 / s.rate);
    }
  }

  lemma {:induction false} WaitNeverReturns(s: State, now: real, attempts: nat)
    requires s.Sane(now) && s.rate < 1.0
    ensures WaitFrom(s, now, attempts).None?
    decreases attempts
  {
    if attempts > 0 {
      LevelInRange(s, now);
      RefusalIsSane(s, now);
      var (s', refused) := Reserved(s, now);
      WaitNeverReturns(s', now + refused.wait, attempts - 1);
    }
  }

  /** After a pause the bucket may still have to refill; after a refill there is a token. */
  lemma TwoAttemptsAreEnough(s: State, now: real, attempts: nat, afterPause: bool)
    requires s.Sane(now) && s.rate >= 1.0 && attempts >= 2
    requires !s.Paused(now) && (!afterPause ==> Grants(s, Reserve(now)))
    ensures WaitFrom(s, now, attempts).Some?
  {
    var (s', answer) := Reserved(s, now);
    if answer.Refused? {
      WaitingHelpsExactly(s, now);
      assert Grants(s', Reserve(now + answer.wait));
    }
  }

  lemma NoTokenBelowRateOne(s: State, e: Event)
    requires 0.0 < s.rate < 1.0
    ensures !Grants(s, e)
  {
    hide Rates.Gain;
  }

  /** A broadcast can send anything at all exactly when its rate is at least 1: below that the bucket holds no token. */
  lemma {:induction false} SendsExactlyFromRateOne(rate: real, start: real, events: seq<Event>, e: Event)
    requires rate > 0.0
    ensures Grants(Run(State(rate, rate, start, None), events), e) ==> rate >= 1.0
    ensures rate >= 1.0 ==> Grants(State(rate, rate, start, None), Reserve(start))
  {
    var s := State(rate, rate, start, None);
    if rate < 1.0 {
      hide Grants;
      NoTokenBelowRateOne(Run(s, events), e);
    } else {
      assert s.Level(start) == rate by {
        assert (start - start) * rate == 0.0;
      }
    }
  }
}
