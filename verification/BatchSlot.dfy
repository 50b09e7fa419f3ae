/**
 * The slot of a sampled point: the time-weighted sum of what it held. What a slot has added up is
 * compared with the integral of the held value, a step function of the time.
 */
module BatchSlot {
  import opened Common

  const NS_PER_MS: real := 1000000.0

  datatype Totals = Totals(value: Option<real>, since: real, sum: real, good: real, range: Option<(real, real)>)

  function Started(now: real): Totals {
    Totals(None, now, 0.0, 0.0, None)
  }

  /** How far a clock moved forward; a step back counts as no time. */
  function Forward(from: real, upto: real): real {
    if upto > from then upto - from else 0.0
  }

  function Closed(s: Totals, now: real): Totals {
    var ns := Forward(s.since, now) * NS_PER_MS;
    if s.value.Some? then s.(sum := s.sum + s.value.value * ns, good := s.good + ns, since := now) else s.(since := now)
  }

  function Widened(range: Option<(real, real)>, v: real): Option<(real, real)> {
    match range
    case None => Some((v, v))
    case Some(r) => Some((if v < r.0 then v else r.0, if v > r.1 then v else r.1))
  }

  function Holding(s: Totals, value: Option<real>, now: real): Totals {
    var closed := Closed(s, now).(value := value);
    if value.Some? then closed.(range := Widened(closed.range, value.value)) else closed
  }

  function Restarted(s: Totals, now: real): Totals {
    Totals(s.value, now, 0.0, 0.0, if s.value.Some? then Some((s.value.value, s.value.value)) else None)
  }

  /** What a sample publishes of a slot: nothing without good time. */
  datatype Sample = Sample(mean: real, range: Option<(real, real)>, last: Option<real>)

  function Sampled(s: Totals): Option<Sample> {
    if s.good > 0.0 then Some(Sample(s.sum / s.good, s.range, s.value)) else None
  }

  // ---- runs of one point ----

  /**
   * A reading with a value or of another quality than good; the link going stale or coming back; a sample that is
   * due.
   */
  datatype Event = Offer(value: Option<real>, now: real) | Link(stale: bool, now: real) | Take(now: real)

  datatype State = State(slot: Totals, stale: bool)

  function Step(s: State, e: Event): State {
    match e
    case Offer(value, now) => s.(slot := Holding(s.slot, value, now))
    case Link(stale, now) => State(if stale && !s.stale then Holding(s.slot, None, now) else s.slot, stale)
    case Take(now) => s.(slot := Restarted(Closed(s.slot, now), now))
  }

  function Run(start: real, events: seq<Event>): State {
    if events == [] then State(Started(start), false)
    else Step(Run(start, events[..|events| - 1]), events[|events| - 1])
  }

  /** The time of the last event, or the start. */
  function Latest(start: real, events: seq<Event>): real {
    if events == [] then start else events[|events| - 1].now
  }

  ghost predicate Clocked(start: real, events: seq<Event>) {
    events == [] || (Clocked(start, events[..|events| - 1])
        && Latest(start, events[..|events| - 1]) <= events[|events| - 1].now)
  }

  // ---- what the point held, without the slot ----

  function LinkIsStale(events: seq<Event>): bool {
    if events == [] then false
    else
      var e := events[|events| - 1];
      if e.Link? then e.stale else LinkIsStale(events[..|events| - 1])
  }

  /** The value held after some events. */
  function ValueAfter(events: seq<Event>): Option<real> {
    if events == [] then None
    else
      var front, e := events[..|events| - 1], events[|events| - 1];
      match e
      case Offer(value, _) => value
      case Link(stale, _) => if stale && !LinkIsStale(front) then None else ValueAfter(front)
      case Take(_) => ValueAfter(front)
  }

  /** The value held at time `t`. */
  function At(events: seq<Event>, t: real): Option<real> {
    if events == [] then None
    else if events[|events| - 1].now <= t then ValueAfter(events)
    else At(events[..|events| - 1], t)
  }

  function Times(value: Option<real>, time: real): real {
    if value.Some? then value.value * time else 0.0
  }

  function Later(a: real, b: real): real {
    if a < b then b else a
  }

  /** The integral of the held value over a stretch of time: the part since the last event, and the part before it. */
  function Integral(events: seq<Event>, from: real, upto: real): real
    decreases |events|
  {
    if events == [] || upto <= from then 0.0
    else
      var front, e := events[..|events| - 1], events[|events| - 1];
      if upto <= e.now then Integral(front, from, upto)
      else Integral(front, from, Later(from, e.now)) + Times(ValueAfter(events), upto - Later(from, e.now))
  }

  /** The time of a stretch in which a value was held. */
  function GoodTime(events: seq<Event>, from: real, upto: real): real
    decreases |events|
  {
    if events == [] || upto <= from then 0.0
    else
      var front, e := events[..|events| - 1], events[|events| - 1];
      if upto <= e.now then GoodTime(front, from, upto)
      else
        GoodTime(front, from, Later(from, e.now))
        + (if ValueAfter(events).Some? then upto - Later(from, e.now) else 0.0)
  }

  /** When the last sample was taken, or the start. */
  function LastTaken(start: real, events: seq<Event>): real {
    if events == [] then start
    else
      var e := events[|events| - 1];
      if e.Take? then e.now else LastTaken(start, events[..|events| - 1])
  }

  /** The values held since the last sample, the one held across it included. */
  function SeenSince(events: seq<Event>): seq<real> {
    if events == [] then []
    else
      var front, e := events[..|events| - 1], events[|events| - 1];
      match e
      case Offer(value, _) => SeenSince(front) + (if value.Some? then [value.value] else [])
      case Link(_, _) => SeenSince(front)
      case Take(_) => if ValueAfter(front).Some? then [ValueAfter(front).value] else []
  }

  /** `range` is the smallest and the largest of `values`. */
  ghost predicate IsRange(range: Option<(real, real)>, values: seq<real>) {
    match range
    case None => values == []
    case Some(r) => r.0 in values && r.1 in values && forall v | v in values :: r.0 <= v <= r.1
  }

  // ---- the slot is the integral ----

  predicate Nanos(ns: real, ms: real) {
    ns == NS_PER_MS * ms
  }

  predicate IsMean(mean: real, sum: real, time: real) {
    mean * time == sum
  }

  /** A sum of values between two bounds over some good time. */
  predicate Within(sum: real, good: real, lo: real, hi: real) {
    lo * good <= sum <= hi * good
  }

  ghost predicate Totalled(start: real, events: seq<Event>, s: Totals) {
    var from := LastTaken(start, events);
    && from <= s.since <= Latest(start, events)
    && Nanos(s.sum, Integral(events, from, s.since))
    && Nanos(s.good, GoodTime(events, from, s.since))
    && s.value == ValueAfter(events)
    && (forall t | t >= s.since :: At(events, t) == s.value)
    && IsRange(s.range, SeenSince(events))
    && (s.value.Some? ==> s.value.value in SeenSince(events))
  }

  /** Later events do not change what was held before them. */
  lemma EarlierAsBefore(events: seq<Event>, e: Event, from: real, upto: real)
    requires upto <= e.now
    ensures Integral(events + [e], from, upto) == Integral(events, from, upto)
    ensures GoodTime(events + [e], from, upto) == GoodTime(events, from, upto)
  {
    assert (events + [e])[..|events + [e]| - 1] == events;
  }

  /** A constant value adds up to the value times the time. */
  lemma {:induction false} HeldThroughout(events: seq<Event>, from: real, since: real, upto: real, v: Option<real>)
    requires from <= since <= upto && forall t | since <= t < upto :: At(events, t) == v
    ensures Integral(events, from, upto) == Integral(events, from, since) + Times(v, upto - since)
    ensures GoodTime(events, from, upto) == GoodTime(events, from, since) + (if v.Some? then upto - since else 0.0)
    decreases |events|
  {
    if since < upto {
      assert At(events, since) == v;
    }
    if events != [] && since < upto {
      var front, e := events[..|events| - 1], events[|events| - 1];
      if upto <= e.now {
        assert forall t | since <= t < upto :: At(front, t) == At(events, t);
        HeldThroughout(front, from, since, upto, v);
      } else {
        assert At(events, Later(since, e.now)) == v == ValueAfter(events);
        if since < e.now {
          assert forall t | since <= t < e.now :: At(front, t) == At(events, t);
          HeldThroughout(front, from, since, e.now, v);
          TimesAdds(v, e.now - since, upto - e.now);
        } else if from < since {
          TimesAdds(v, since - Later(from, e.now), upto - since);
        }
      }
    }
  }

  lemma TimesAdds(v: Option<real>, a: real, b: real)
    ensures Times(v, a + b) == Times(v, a) + Times(v, b)
  {
  }

  /** Closing a slot brings its sums up to date. */
  lemma ClosedTotals(start: real, events: seq<Event>, s: Totals, now: real)
    requires Totalled(start, events, s) && now >= Latest(start, events)
    ensures var from, closed := LastTaken(start, events), Closed(s, now);
            && Nanos(closed.sum, Integral(events, from, now))
            && Nanos(closed.good, GoodTime(events, from, now))
            && closed.since == now && closed.value == s.value && closed.range == s.range
  {
    var from := LastTaken(start, events);
    HeldThroughout(events, from, s.since, now, s.value);
    hide Integral, GoodTime, At, LastTaken, SeenSince, IsRange, Nanos, Closed, Times;
    Added(s, Integral(events, from, s.since), GoodTime(events, from, s.since), now);
  }

  /** Closing adds the time since then, and the value held all that time. */
  lemma Added(s: Totals, sum: real, good: real, now: real)
    requires now >= s.since && Nanos(s.sum, sum) && Nanos(s.good, good)
    ensures var closed := Closed(s, now);
            && Nanos(closed.sum, sum + Times(s.value, now - s.since))
            && Nanos(closed.good, good + if s.value.Some? then now - s.since else 0.0)
            && closed.since == now && closed.value == s.value && closed.range == s.range
  {
  }

  lemma AtStep(events: seq<Event>, e: Event)
    ensures forall t :: At(events + [e], t) == if e.now <= t then ValueAfter(events + [e]) else At(events, t)
  {
    hide ValueAfter;
    var more := events + [e];
    assert more[..|more| - 1] == events;
  }

  lemma OneMore(start: real, events: seq<Event>, e: Event)
    ensures var more, v := events + [e], ValueAfter(events);
            && Latest(start, more) == e.now
                && LastTaken(start, more) == (if e.Take? then e.now else LastTaken(start, events))
            && LinkIsStale(more) == (if e.Link? then e.stale else LinkIsStale(events))
            && match e
               case Offer(value, _) =>
                 ValueAfter(more) == value
                     && SeenSince(more) == SeenSince(events) + (if value.Some? then [value.value] else [])
               case Link(stale, _) =>
                 ValueAfter(more) == (if stale && !LinkIsStale(events) then None else v)
                     && SeenSince(more) == SeenSince(events)
               case Take(_) => ValueAfter(more) == v && SeenSince(more) == if v.Some? then [v.value] else []
  {
    var more := events + [e];
    assert more[..|more| - 1] == events;
  }

  /** The sums stand for the time up to the event, whatever it is. */
  lemma StepKeeps(start: real, events: seq<Event>, e: Event, s: Totals)
    requires Totalled(start, events, s) && Latest(start, events) <= e.now
    ensures var from, more, closed := LastTaken(start, events), events + [e], Closed(s, e.now);
            && Nanos(closed.sum, Integral(more, from, e.now)) && Nanos(closed.good, GoodTime(more, from, e.now))
            && Nanos(s.sum, Integral(more, from, s.since)) && Nanos(s.good, GoodTime(more, from, s.since))
            && closed.since == e.now && closed.value == s.value && closed.range == s.range
  {
    ClosedTotals(start, events, s, e.now);
    var from := LastTaken(start, events);
    EarlierAsBefore(events, e, from, e.now);
    EarlierAsBefore(events, e, from, s.since);
    hide Integral, GoodTime, Closed, At, ValueAfter, SeenSince, IsRange, LastTaken;
  }

  lemma StepTotalled(start: real, events: seq<Event>, e: Event, s: State)
    requires Totalled(start, events, s.slot) && Latest(start, events) <= e.now && s.stale == LinkIsStale(events)
    ensures Totalled(start, events + [e], Step(s, e).slot) && Step(s, e).stale == LinkIsStale(events + [e])
  {
    hide Integral, GoodTime, Closed, At, IsRange, Widened, Nanos, LastTaken, Latest, ValueAfter, SeenSince, LinkIsStale;
    var more := events + [e];
    OneMore(start, events, e);
    StepKeeps(start, events, e, s.slot);
    AtStep(events, e);
    NoTime(more, e.now);
    match e
    case Offer(value, now) => WidenedIs(s.slot.range, SeenSince(events), value);
    case Link(stale, now) =>
    case Take(now) => OneValue(s.slot.value);
  }

  lemma OneValue(v: Option<real>)
    ensures if v.Some? then IsRange(Some((v.value, v.value)), [v.value]) else IsRange(None, [])
  {
  }

  lemma NoTime(events: seq<Event>, t: real)
    ensures Nanos(0.0, Integral(events, t, t)) && Nanos(0.0, GoodTime(events, t, t))
  {
  }

  lemma WidenedIs(range: Option<(real, real)>, values: seq<real>, v: Option<real>)
    requires IsRange(range, values)
    ensures IsRange(if v.Some? then Widened(range, v.value) else range, values + if v.Some? then [v.value] else [])
  {
  }

  lemma {:induction false} RunTotalled(start: real, events: seq<Event>)
    requires Clocked(start, events)
    ensures Totalled(start, events, Run(start, events).slot) && Run(start, events).stale == LinkIsStale(events)
    decreases |events|
  {
    if events != [] {
      var front, e := events[..|events| - 1], events[|events| - 1];
      RunTotalled(start, front);
      hide Totalled, LinkIsStale;
      StepTotalled(start, front, e, Run(start, front));
      assert front + [e] == events;
    }
  }

  // ---- what a sample says ----

  /** What is held since the last sample is among the values seen. */
  lemma {:induction false} HeldIsSeen(start: real, events: seq<Event>, t: real)
    requires Clocked(start, events) && t >= LastTaken(start, events) && At(events, t).Some?
    ensures At(events, t).value in SeenSince(events)
    decreases |events|
  {
    RunTotalled(start, events);
    var front, e := events[..|events| - 1], events[|events| - 1];
    if t < e.now {
      HeldIsSeen(start, front, t);
    }
  }

  /** The integral lies between the bounds of the value, each held for the good time. */
  lemma {:induction false} MeanWithin(events: seq<Event>, from: real, upto: real, lo: real, hi: real)
    requires forall t | from <= t < upto && At(events, t).Some? :: lo <= At(events, t).value <= hi
    ensures Within(Integral(events, from, upto), GoodTime(events, from, upto), lo, hi)
    ensures GoodTime(events, from, upto) >= 0.0
    decreases |events|
  {
    if events != [] && from < upto {
      var front, e := events[..|events| - 1], events[|events| - 1];
      var first := if upto <= e.now then upto else Later(from, e.now);
      assert forall t | from <= t < first && At(front, t).Some? :: At(front, t) == At(events, t);
      MeanWithin(front, from, first, lo, hi);
      if e.now < upto {
        var v, time := ValueAfter(events), upto - first;
        assert At(events, first) == v;
        hide At, ValueAfter;
        WithinAdds(Integral(front, from, first), GoodTime(front, from, first), lo, hi, v, time);
      }
    }
  }

  lemma WithinAdds(sum: real, good: real, lo: real, hi: real, v: Option<real>, time: real)
    requires Within(sum, good, lo, hi) && time >= 0.0 && (v.Some? ==> lo <= v.value <= hi)
    ensures Within(sum + Times(v, time), good + (if v.Some? then time else 0.0), lo, hi)
  {
    if v.Some? {
      assert lo * time <= v.value * time <= hi * time;
      assert lo * (good + time) == lo * good + lo * time && hi * (good + time) == hi * good + hi * time;
    }
  }

  /**
   * A sample is published exactly when a value was held for some time since the last one; its mean
   * is the integral of the held value over that good time, its minimum and maximum are the smallest
   * and largest value seen, and the mean lies between them.
   */
  lemma SampleIsTheMean(start: real, events: seq<Event>, now: real)
    requires Clocked(start, events) && Latest(start, events) <= now
    ensures var from, sample := LastTaken(start, events), Sampled(Closed(Run(start, events).slot, now));
            && (sample.Some? <==> GoodTime(events, from, now) > 0.0)
            && (sample.Some? ==>
                  && IsMean(sample.value.mean, Integral(events, from, now), GoodTime(events, from, now))
                  && sample.value.range.Some? && IsRange(sample.value.range, SeenSince(events))
                  && sample.value.range.value.0 <= sample.value.mean <= sample.value.range.value.1
                  && sample.value.last == ValueAfter(events))
  {
    hide *;
    var from, slot := LastTaken(start, events), Run(start, events).slot;
    RunTotalled(start, events);
    ClosedTotals(start, events, slot, now);
    TotalledIs(start, events, slot);
    if GoodTime(events, from, now) > 0.0 {
      SumWithin(start, events, slot, now);
    }
    SampledIs(Closed(slot, now), Integral(events, from, now), GoodTime(events, from, now));
  }

  lemma TotalledIs(start: real, events: seq<Event>, s: Totals)
    requires Totalled(start, events, s)
    ensures s.value == ValueAfter(events) && IsRange(s.range, SeenSince(events))
  {
  }

  lemma SampledIs(s: Totals, sum: real, good: real)
    requires Nanos(s.sum, sum) && Nanos(s.good, good)
    requires good > 0.0 ==> s.range.Some? && Within(sum, good, s.range.value.0, s.range.value.1)
    ensures Sampled(s).Some? <==> good > 0.0
    ensures good > 0.0 ==>
              var sample := Sampled(s).value;
              && IsMean(sample.mean, sum, good) && sample.range == s.range && sample.last == s.value
              && s.range.value.0 <= sample.mean <= s.range.value.1
  {
    if good > 0.0 {
      Quotient(sum, good, s.range.value.0, s.range.value.1);
    }
  }

  lemma SumWithin(start: real, events: seq<Event>, s: Totals, now: real)
    requires Clocked(start, events) && Totalled(start, events, s)
    requires GoodTime(events, LastTaken(start, events), now) > 0.0
    ensures s.range.Some?
    ensures var from, r := LastTaken(start, events), s.range.value;
            Within(Integral(events, from, now), GoodTime(events, from, now), r.0, r.1)
  {
    hide Integral, GoodTime, At, LastTaken, ValueAfter, SeenSince;
    var from := LastTaken(start, events);
    var held := SomethingHeld(events, from, now);
    HeldIsSeen(start, events, held);
    var range := s.range.value;
    forall t | from <= t < now && At(events, t).Some?
      ensures range.0 <= At(events, t).value <= range.1
    {
      HeldIsSeen(start, events, t);
    }
    MeanWithin(events, from, now, range.0, range.1);
  }

  /** Good time is time at which a value was held. */
  lemma {:induction false} SomethingHeld(events: seq<Event>, from: real, upto: real) returns (t: real)
    requires GoodTime(events, from, upto) > 0.0
    ensures from <= t < upto && At(events, t).Some?
    decreases |events|
  {
    var front, e := events[..|events| - 1], events[|events| - 1];
    if upto <= e.now {
      t := SomethingHeld(front, from, upto);
    } else if ValueAfter(events).Some? {
      t := Later(from, e.now);
    } else {
      t := SomethingHeld(front, from, Later(from, e.now));
    }
  }

  lemma Quotient(sum: real, good: real, lo: real, hi: real)
    requires good > 0.0 && lo * good <= sum <= hi * good
    ensures var mean := (NS_PER_MS * sum) / (NS_PER_MS * good); mean * good == sum && lo <= mean <= hi
  {
    var mean := (NS_PER_MS * sum) / (NS_PER_MS * good);
    assert mean * (NS_PER_MS * good) == NS_PER_MS * sum;
    assert mean * good == sum;
    assert (mean - lo) * good >= 0.0 && (hi - mean) * good >= 0.0;
    NotNegative(mean - lo, good);
    NotNegative(hi - mean, good);
  }

  lemma NotNegative(x: real, y: real)
    requires y > 0.0 && x * y >= 0.0
    ensures x >= 0.0
  {
    assert x == (x * y) / y;
  }

  // ---- a clock that steps back ----

  /** The event changes or closes the slot; a link that was stale or healthy before does neither. */
  function Touches(front: seq<Event>, e: Event): bool {
    !e.Link? || (e.stale && !LinkIsStale(front))
  }

  /** When the slot was last touched, or the start. */
  function LastTouch(start: real, events: seq<Event>): real {
    if events == [] then start
    else
      var front, e := events[..|events| - 1], events[|events| - 1];
      if Touches(front, e) then e.now else LastTouch(start, front)
  }

  /** The same event at another time. */
  function Retimed(e: Event, now: real): Event {
    match e
    case Offer(value, _) => Offer(value, now)
    case Link(stale, _) => Link(stale, now)
    case Take(_) => Take(now)
  }

  /** The run on a clock that counts only the time the device clock moved forward between touches of the slot. */
  function Unwound(start: real, events: seq<Event>): (r: seq<Event>)
    ensures |r| == |events|
  {
    if events == [] then []
    else
      var front, e := events[..|events| - 1], events[|events| - 1];
      var before := Unwound(start, front);
      var passed := if Touches(front, e) then Forward(LastTouch(start, front), e.now) else 0.0;
      before + [Retimed(e, Latest(0.0, before) + passed)]
  }

  /** What does not depend on times is the same in the unwound run. */
  lemma {:induction false} UnwoundHolds(start: real, events: seq<Event>)
    ensures var r := Unwound(start, events);
            && Clocked(0.0, r) && LinkIsStale(r) == LinkIsStale(events)
            && ValueAfter(r) == ValueAfter(events) && SeenSince(r) == SeenSince(events)
    decreases |events|
  {
    if events != [] {
      var front, e, r := events[..|events| - 1], events[|events| - 1], Unwound(start, events);
      UnwoundHolds(start, front);
      assert r[..|r| - 1] == Unwound(start, front);
    }
  }

  /** The slot of the unwound run differs only in when it was touched. */
  lemma {:induction false} UnwoundSlot(start: real, events: seq<Event>)
    ensures var slot, other := Run(start, events).slot, Run(0.0, Unwound(start, events)).slot;
            && slot.since == LastTouch(start, events)
            && other.since == Latest(0.0, Unwound(start, events))
            && other == slot.(since := other.since)
            && Run(start, events).stale == Run(0.0, Unwound(start, events)).stale == LinkIsStale(events)
    decreases |events|
  {
    if events != [] {
      var front, e, r := events[..|events| - 1], events[|events| - 1], Unwound(start, events);
      UnwoundSlot(start, front);
      assert r[..|r| - 1] == Unwound(start, front);
      hide Closed, Run, Unwound, LinkIsStale, LastTouch, Widened, Forward;
      RunStep(start, events);
      RunStep(0.0, r);
      TouchStep(start, events);
      SameClosing(Run(start, front).slot, Run(0.0, Unwound(start, front)).slot, e.now, r[|r| - 1].now);
    }
  }

  lemma RunStep(start: real, events: seq<Event>)
    requires events != []
    ensures Run(start, events) == Step(Run(start, events[..|events| - 1]), events[|events| - 1])
  {
  }

  lemma TouchStep(start: real, events: seq<Event>)
    requires events != []
    ensures var front, e, r := events[..|events| - 1], events[|events| - 1], Unwound(start, events);
            && LastTouch(start, events) == (if Touches(front, e) then e.now else LastTouch(start, front))
            && LinkIsStale(events) == (if e.Link? then e.stale else LinkIsStale(front))
            && r[|r| - 1] == Retimed(e, Latest(0.0, Unwound(start, front))
                                    + if Touches(front, e) then Forward(LastTouch(start, front), e.now) else 0.0)
  {
  }

  /** For every run the sums are the integral over the time the clock moved forward. */
  lemma TotalsOnAnyClock(start: real, events: seq<Event>)
    ensures var r := Unwound(start, events); Totalled(0.0, r, Run(start, events).slot.(since := Latest(0.0, r)))
  {
    hide Totalled, Unwound, Run, Clocked;
    UnwoundHolds(start, events);
    UnwoundSlot(start, events);
    RunTotalled(0.0, Unwound(start, events));
  }

  /**
   * For every run, also on a clock that steps back: what a sample publishes is the mean over the time the
   * clock moved forward, with the smallest and largest value seen, and the mean lies between them.
   */
  lemma SampleOnAnyClock(start: real, events: seq<Event>, now: real)
    ensures var r := Unwound(start, events);
            var from, upto := LastTaken(0.0, r), Latest(0.0, r) + Forward(LastTouch(start, events), now);
            var sample := Sampled(Closed(Run(start, events).slot, now));
            && (sample.Some? <==> GoodTime(r, from, upto) > 0.0)
            && (sample.Some? ==>
                  && IsMean(sample.value.mean, Integral(r, from, upto), GoodTime(r, from, upto))
                  && sample.value.range.Some? && IsRange(sample.value.range, SeenSince(events))
                  && sample.value.range.value.0 <= sample.value.mean <= sample.value.range.value.1
                  && sample.value.last == ValueAfter(events))
  {
    hide Integral, GoodTime, LastTaken, SeenSince, ValueAfter, IsRange, IsMean, Unwound, Run, Clocked, LastTouch;
    var r := Unwound(start, events);
    var upto := Latest(0.0, r) + Forward(LastTouch(start, events), now);
    UnwoundHolds(start, events);
    UnwoundSlot(start, events);
    SampleIsTheMean(0.0, r, upto);
    SameClosing(Run(start, events).slot, Run(0.0, r).slot, now, upto);
  }

  /** Closing adds the same when as much time has passed. */
  lemma SameClosing(a: Totals, b: Totals, now: real, upto: real)
    requires b == a.(since := b.since)
    ensures upto == b.since + Forward(a.since, now) ==> Closed(b, upto) == Closed(a, now).(since := upto)
  {
    assert upto == b.since + Forward(a.since, now) ==> Forward(b.since, upto) == Forward(a.since, now);
  }

  // ---- the slot as it works ----

  class Slot {
    var value: Option<real>
    var since: real
    var sum: real
    var good: real
    var range: Option<(real, real)>

    function Snapshot(): Totals
      reads this
    {
      Totals(value, since, sum, good, range)
    }

    constructor (now: real)
      ensures Snapshot() == Started(now)
    {
      value, since, sum, good, range := None, now, 0.0, 0.0, None;
    }

    method Close(now: real)
      modifies this
      ensures Snapshot() == Closed(old(Snapshot()), now)
    {
      if value.Some? {
        var ns := (if now > since then now - since else 0.0) * NS_PER_MS;
        sum := sum + value.value * ns;
        good := good + ns;
      }
      since := now;
    }

    method Hold(held: Option<real>, now: real)
      modifies this
      ensures Snapshot() == Holding(old(Snapshot()), held, now)
    {
      Close(now);
      value := held;
      if held.Some? {
        var v := held.value;
        if range.Some? {
          range := Some((if v < range.value.0 then v else range.value.0, if v > range.value.1 then v
              else range.value.1));
        } else {
          range := Some((v, v));
        }
      }
    }

    method Restart(now: real)
      modifies this
      ensures Snapshot() == Restarted(old(Snapshot()), now)
    {
      since := now;
      sum := 0.0;
      good := 0.0;
      range := if value.None? then None else Some((value.value, value.value));
    }

    /** A sample that is due: what the slot has to publish, and it starts again. */
    method TakeSample(now: real) returns (sample: Option<Sample>)
      modifies this
      ensures sample == Sampled(Closed(old(Snapshot()), now))
      ensures Snapshot() == Restarted(Closed(old(Snapshot()), now), now)
    {
      Close(now);
      sample := None;
      if good > 0.0 {
        sample := Some(Sample(sum / good, range, value));
      }
      Restart(now);
    }
  }
}
