/** The rate pacer of a judged run, for callers that wait one after another on an exact clock. */
module Pacer {

  const FLOOR_CALLS_PER_MINUTE: real := 3.0

  /** A granted call, and the interval then in force. */
  datatype Slot = Slot(time: real, interval: real)

  datatype Status = Running | Stopped | DividedByZero

  /** `free` is when the last call returned. */
  datatype State = State(interval: real, next: real, rateLimits: nat, free: real, status: Status, slots: seq<Slot>)

  datatype Event = Wait(now: real) | RateLimited(now: real)

  function Initial(callsPerMinute: real): State {
    State(if callsPerMinute > 0.0 then 60.0 / callsPerMinute else 0.0, 0.0, 0, 0.0, Running, [])
  }

  function Later(x: real, y: real): real {
    if x < y then y else x
  }

  /** Callers are sequential: the next call comes after the last one returned. */
  predicate Enabled(s: State, e: Event) {
    s.status == Running && e.now >= s.free
  }

  function Step(s: State, e: Event): State {
    match e
    case Wait(now) =>
      if s.interval == 0.0 then s.(free := now, slots := s.slots + [Slot(now, 0.0)])
      else
        var granted := Later(now, s.next);
        s.(next := granted + s.interval, free := granted, slots := s.slots + [Slot(granted, s.interval)])
    case RateLimited(now) =>
      var slowed := s.(rateLimits := s.rateLimits + 1, interval := s.interval * 2.0);
      if slowed.interval == 0.0 then slowed.(free := now, status := DividedByZero)
      else if 60.0 / slowed.interval < FLOOR_CALLS_PER_MINUTE then slowed.(free := now, status := Stopped)
      else slowed.(free := now + 60.0, next := now + 60.0 + slowed.interval)
  }

  ghost predicate IsRun(callsPerMinute: real, events: seq<Event>) {
    events == [] ||
      var before := events[..|events| - 1];
      IsRun(callsPerMinute, before) && Enabled(After(callsPerMinute, before), events[|events| - 1])
  }

  function After(callsPerMinute: real, events: seq<Event>): State {
    if events == [] then Initial(callsPerMinute)
    else Step(After(callsPerMinute, events[..|events| - 1]), events[|events| - 1])
  }

  // ---------------------------------------------------------------- the spacing of slots

  /** Each slot comes at least the earlier one's interval after it, and intervals only grow. */
  ghost predicate Spaced(slots: seq<Slot>) {
    forall i :: 0 <= i < |slots| - 1 ==>
      slots[i].time + slots[i].interval <= slots[i + 1].time && slots[i].interval <= slots[i + 1].interval
  }

  ghost predicate Paced(s: State) {
    && s.interval > 0.0
    && Spaced(s.slots)
    && (s.slots != [] ==>
          var last := s.slots[|s.slots| - 1];
          last.time + last.interval <= s.next && last.time <= s.free && last.interval <= s.interval)
  }

  lemma StepStaysPaced(s: State, e: Event)
    requires Paced(s) && Enabled(s, e)
    ensures Step(s, e).status == Running ==> Paced(Step(s, e))
    ensures Spaced(Step(s, e).slots)
    ensures s.interval <= Step(s, e).interval
  {
  }

  lemma {:induction false} EveryRunIsPaced(callsPerMinute: real, events: seq<Event>)
    requires callsPerMinute > 0.0 && IsRun(callsPerMinute, events)
    ensures After(callsPerMinute, events).status == Running ==> Paced(After(callsPerMinute, events))
    ensures Spaced(After(callsPerMinute, events).slots)
    decreases |events|
  {
    if events == [] {
      PositiveQuotient(60.0, callsPerMinute);
    } else {
      var before := events[..|events| - 1];
      EveryRunIsPaced(callsPerMinute, before);
      StepStaysPaced(After(callsPerMinute, before), events[|events| - 1]);
    }
  }

  lemma PositiveQuotient(x: real, y: real)
    requires x > 0.0 && y > 0.0
    ensures x / y > 0.0
  {
  }

  lemma {:induction false} SlotsAreSpacedOut(slots: seq<Slot>, i: nat, m: nat)
    requires Spaced(slots) && i + m < |slots|
    ensures slots[i].interval <= slots[i + m].interval
    ensures slots[i + m].time - slots[i].time >= m as real * slots[i].interval
    decreases m
  {
    if m > 0 {
      SlotsAreSpacedOut(slots, i, m - 1);
      var j := i + m - 1;
      assert slots[j].time + slots[j].interval <= slots[j + 1].time && slots[j].interval <= slots[j + 1].interval;
      OneMoreInterval(m - 1, slots[i].interval);
    }
  }

  lemma OneMoreInterval(n: nat, interval: real)
    ensures (n + 1) as real * interval == n as real * interval + interval
  {
  }

  /** From slot `i` to slot `i + m`: at least m times the smallest interval in force among them, which
      is the first one's. */
  ghost predicate SpansItsIntervals(slots: seq<Slot>, i: nat, m: nat)
    requires i + m < |slots|
  {
    && slots[i + m].time - slots[i].time >= m as real * slots[i].interval
    && forall j :: i <= j <= i + m ==> slots[i].interval <= slots[j].interval
  }

  lemma SpacedSlotsSpan(slots: seq<Slot>, i: nat, m: nat)
    requires Spaced(slots) && i + m < |slots|
    ensures SpansItsIntervals(slots, i, m)
  {
    SlotsAreSpacedOut(slots, i, m);
    forall j | i <= j <= i + m
      ensures slots[i].interval <= slots[j].interval
    {
      SlotsAreSpacedOut(slots, i, j - i);
      assert slots[i + (j - i)] == slots[j];
    }
  }

  /** The slots of any run, across every slow-down on the way. */
  lemma SuccessiveSlotsSpanTheirIntervals(callsPerMinute: real, events: seq<Event>, slots: seq<Slot>, i: nat, m: nat)
    requires callsPerMinute > 0.0 && IsRun(callsPerMinute, events)
    requires slots == After(callsPerMinute, events).slots && i + m < |slots|
    ensures SpansItsIntervals(slots, i, m)
  {
    assert Spaced(slots) by {
      EveryRunIsPaced(callsPerMinute, events);
    }
    SpacedSlotsSpan(slots, i, m);
  }

  // ---------------------------------------------------------------- how often a run slows down

  function Power2(n: nat): nat {
    if n == 0 then 1 else 2 * Power2(n - 1)
  }

  lemma {:induction false} PowersArePositive(n: nat)
    ensures Power2(n) >= 1
  {
    if n > 0 {
      PowersArePositive(n - 1);
    }
  }

  /** Sixty seconds, doubled, over the starting rate. */
  ghost predicate Doubled(callsPerMinute: real, s: State) {
    s.interval * callsPerMinute == 60.0 * Power2(s.rateLimits) as real
  }

  lemma DoublingKeepsTheProduct(interval: real, c: real, p: nat)
    requires interval * c == 60.0 * p as real
    ensures (interval * 2.0) * c == 60.0 * (2 * p) as real
  {
    assert (interval * 2.0) * c == (interval * c) * 2.0;
  }

  lemma BelowTheFloorExactlyWhen(interval: real, c: real, p: nat)
    requires interval > 0.0 && c > 0.0 && p > 0 && interval * c == 60.0 * p as real
    ensures 60.0 / interval < 3.0 <==> c < 3.0 * p as real
  {
    var rate := 60.0 / interval;
    assert rate * interval == 60.0;
    assert c * interval == rate * interval * p as real;
    assert c == rate * p as real by {
      assert (c - rate * p as real) * interval == 0.0;
    }
    Scale(rate, 3.0, p as real);
  }

  lemma Scale(x: real, y: real, p: real)
    requires p > 0.0
    ensures x * p < y * p <==> x < y
  {
  }

  ghost predicate Backoff(callsPerMinute: real, s: State) {
    && Doubled(callsPerMinute, s) && s.interval > 0.0
    && (s.status == Running && s.rateLimits > 0 ==> 3.0 * Power2(s.rateLimits) as real <= callsPerMinute)
    && (s.status == Stopped ==>
          && s.rateLimits > 0
          && callsPerMinute < 3.0 * Power2(s.rateLimits) as real
          && (s.rateLimits > 1 ==> 3.0 * Power2(s.rateLimits - 1) as real <= callsPerMinute))
    && s.status != DividedByZero
  }

  lemma OneMoreDoubling(c: real, interval: real, k: nat)
    requires c > 0.0 && interval > 0.0 && interval * c == 60.0 * Power2(k) as real
    ensures (interval * 2.0) * c == 60.0 * Power2(k + 1) as real
    ensures 60.0 / (interval * 2.0) < 3.0 <==> c < 3.0 * Power2(k + 1) as real
  {
    DoublingKeepsTheProduct(interval, c, Power2(k));
    PowersArePositive(k + 1);
    BelowTheFloorExactlyWhen(interval * 2.0, c, Power2(k + 1));
  }

  lemma StepBacksOff(callsPerMinute: real, s: State, e: Event)
    requires callsPerMinute > 0.0 && Backoff(callsPerMinute, s) && Enabled(s, e)
    ensures Backoff(callsPerMinute, Step(s, e))
  {
    if e.RateLimited? {
      OneMoreDoubling(callsPerMinute, s.interval, s.rateLimits);
    }
  }

  /** A run survives its n-th rate limit exactly while three times 2^n is within its starting rate, so
      at most log2(callsPerMinute / 3) slow-downs happen before it stops, and the next one stops it. */
  lemma {:induction false} SlowDownsAreLogarithmic(callsPerMinute: real, events: seq<Event>)
    requires callsPerMinute > 0.0 && IsRun(callsPerMinute, events)
    ensures Backoff(callsPerMinute, After(callsPerMinute, events))
    decreases |events|
  {
    if events == [] {
      var interval := 60.0 / callsPerMinute;
      PositiveQuotient(60.0, callsPerMinute);
      assert interval * callsPerMinute == 60.0;
    } else {
      var before := events[..|events| - 1];
      SlowDownsAreLogarithmic(callsPerMinute, before);
      StepBacksOff(callsPerMinute, After(callsPerMinute, before), events[|events| - 1]);
    }
  }

  lemma {:induction false} UnpacedStaysUnpaced(callsPerMinute: real, events: seq<Event>)
    requires callsPerMinute <= 0.0 && IsRun(callsPerMinute, events)
    ensures After(callsPerMinute, events).interval == 0.0
    decreases |events|
  {
    if events != [] {
      UnpacedStaysUnpaced(callsPerMinute, events[..|events| - 1]);
    }
  }

  /** An unpaced run has no interval to double: the first rate limit divides by zero, whenever it comes.
      A paced run's never does. */
  lemma RateLimitDividesByZeroExactlyWhenUnpaced(callsPerMinute: real, events: seq<Event>, now: real)
    requires IsRun(callsPerMinute, events) && Enabled(After(callsPerMinute, events), RateLimited(now))
    ensures Step(After(callsPerMinute, events), RateLimited(now)).status == DividedByZero <==> callsPerMinute <= 0.0
  {
    if callsPerMinute > 0.0 {
      SlowDownsAreLogarithmic(callsPerMinute, events);
    } else {
      UnpacedStaysUnpaced(callsPerMinute, events);
    }
  }

  /** A call is granted as soon as it may be: at once, or one interval after the last call, or one doubled
      interval and a minute after the last rate limit. */
  lemma GrantedAsSoonAsAllowed(callsPerMinute: real, events: seq<Event>, now: real)
    requires callsPerMinute > 0.0 && IsRun(callsPerMinute, events)
    requires Enabled(After(callsPerMinute, events), Wait(now))
    ensures var s := After(callsPerMinute, events);
            var granted := Step(s, Wait(now)).slots[|s.slots|];
            && Step(s, Wait(now)).slots == s.slots + [granted] && granted.interval == s.interval
            && (events == [] ==> granted.time == if now < 0.0 then 0.0 else now)
            && (events != [] && events[|events| - 1].Wait? ==>
                  && s.slots != []
                  && var earliest := s.slots[|s.slots| - 1].time + s.slots[|s.slots| - 1].interval;
                     granted.time == if now < earliest then earliest else now)
            && (events != [] && events[|events| - 1].RateLimited? ==>
                  var earliest := events[|events| - 1].now + 60.0 + s.interval;
                  granted.time == if now < earliest then earliest else now)
  {
    SlowDownsAreLogarithmic(callsPerMinute, events);
    if events != [] {
      var before := events[..|events| - 1];
      SlowDownsAreLogarithmic(callsPerMinute, before);
      assert After(callsPerMinute, events) == Step(After(callsPerMinute, before), events[|events| - 1]);
    }
  }

  /** Without pacing every call is granted when it comes. */
  lemma UnpacedIsGrantedAtOnce(callsPerMinute: real, events: seq<Event>, now: real)
    requires callsPerMinute <= 0.0 && IsRun(callsPerMinute, events)
    ensures Step(After(callsPerMinute, events), Wait(now)).slots
            == After(callsPerMinute, events).slots + [Slot(now, 0.0)]
  {
    UnpacedStaysUnpaced(callsPerMinute, events);
  }

  // ---------------------------------------------------------------- the pacer itself

  lemma RunExtends(callsPerMinute: real, events: seq<Event>, e: Event)
    requires IsRun(callsPerMinute, events) && Enabled(After(callsPerMinute, events), e)
    ensures IsRun(callsPerMinute, events + [e])
    ensures After(callsPerMinute, events + [e]) == Step(After(callsPerMinute, events), e)
  {
    assert (events + [e])[..|events|] == events;
  }

  /** `events` is what has been called so far, and `slots` what it was granted. */
  class RunPacer {
    ghost const rate: real
    ghost var events: seq<Event>
    var interval: real
    var next: real
    var rateLimits: nat
    ghost var free: real
    ghost var status: Status
    ghost var slots: seq<Slot>

    ghost function Snapshot(): State
      reads this
    {
      State(interval, next, rateLimits, free, status, slots)
    }

    /** The pacer is where its calls have brought it. */
    ghost predicate Valid()
      reads this
    {
      IsRun(rate, events) && Snapshot() == After(rate, events)
    }

    constructor (callsPerMinute: real)
      ensures Valid() && rate == callsPerMinute && events == []
    {
      rate, events := callsPerMinute, [];
      interval := if callsPerMinute > 0.0 then 60.0 / callsPerMinute else 0.0;
      next, rateLimits := 0.0, 0;
      free, status, slots := 0.0, Running, [];
    }

    /** Sleeps until the next slot; returns when it is granted. */
    method AwaitSlot(now: real) returns (granted: real)
      requires Valid() && Enabled(Snapshot(), Wait(now))
      modifies this
      ensures Valid() && events == old(events) + [Wait(now)]
      ensures Snapshot() == Step(old(Snapshot()), Wait(now))
      ensures granted == free
    {
      RunExtends(rate, events, Wait(now));
      events := events + [Wait(now)];
      if interval == 0.0 {
        slots := slots + [Slot(now, 0.0)];
        free := now;
        return now;
      }
      granted := now;
      if now < next {
        granted := next;
      }
      slots := slots + [Slot(granted, interval)];
      free := granted;
      next := Later(now, next) + interval;
    }

    /** A quota was hit anyway: pace more slowly from here, or stop. */
    method BackOff(now: real) returns (outcome: Status)
      requires Valid() && Enabled(Snapshot(), RateLimited(now))
      modifies this
      ensures Valid() && events == old(events) + [RateLimited(now)]
      ensures Snapshot() == Step(old(Snapshot()), RateLimited(now))
      ensures outcome == status
    {
      RunExtends(rate, events, RateLimited(now));
      events := events + [RateLimited(now)];
      outcome := SlowDown(now);
    }

    method SlowDown(now: real) returns (outcome: Status)
      requires status == Running
      modifies this`interval, this`next, this`rateLimits, this`free, this`status
      ensures Snapshot() == Step(old(Snapshot()), RateLimited(now)) && outcome == status
    {
      rateLimits := rateLimits + 1;
      interval := interval * 2.0;
      if interval == 0.0 {
        free, status := now, DividedByZero;
        return DividedByZero;
      }
      if 60.0 / interval < FLOOR_CALLS_PER_MINUTE {
        free, status := now, Stopped;
        return Stopped;
      }
      free := now + 60.0;
      next := now + 60.0 + interval;
      outcome := Running;
    }
  }
}
