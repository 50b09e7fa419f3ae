/**
 * What a sample of a device publishes: per point its value or its aggregates, and what those are in terms of what
 * happened to the point.
 */
module BatchReports {
  import opened Common
  import opened Batch
  import opened BatchSample
  import S = BatchSlot

  datatype Aggregate = Mean | Min | Max | Last

  /**
   * What is fixed about a point: whether flows read its samples, whether it is measured, and its aggregates when it
   * is sampled.
   */
  datatype PointPlan = PointPlan(sample: bool, measurable: bool, aggregates: seq<Aggregate>)

  /** The bytes of a series' text, by its point, its aggregate if any, and its value. */
  type Sizes = (nat, Option<Aggregate>, real) -> nat

  function AggregateOf(a: Aggregate, sample: S.Sample): Option<real> {
    match a
    case Mean => Some(sample.mean)
    case Min => if sample.range.Some? then Some(sample.range.value.0) else None
    case Max => if sample.range.Some? then Some(sample.range.value.1) else None
    case Last => sample.last
  }

  function AggregateSeries(topic: nat, k: nat, aggregates: seq<Aggregate>, sample: S.Sample, wall: int,
      bytes: Sizes): seq<Series>
    decreases |aggregates|
  {
    if aggregates == [] then []
    else
      var a := aggregates[|aggregates| - 1];
      var v := AggregateOf(a, sample);
      AggregateSeries(topic, k, aggregates[..|aggregates| - 1], sample, wall, bytes)
      + (if v.Some? then [Series(topic, Piece(k, v.value, wall, bytes(k, Some(a), v.value)))] else [])
  }

  /** The series of one sampled point: its value, or its aggregates over the good time since the last sample. */
  function PointSeries(topic: nat, k: nat, plan: PointPlan, slot: S.Totals, stale: bool, now: int, wall: int,
      bytes: Sizes): seq<Series> {
    if plan.aggregates == [] then
      if slot.value.None? || stale then []
      else [Series(topic, Piece(k, slot.value.value, wall, bytes(k, None, slot.value.value)))]
    else
      var sample := S.Sampled(S.Closed(slot, now as real));
      if sample.None? then [] else AggregateSeries(topic, k, plan.aggregates, sample.value, wall, bytes)
  }

  predicate SampledEvery(c: Config, k: nat, every: int) {
    k < |c.keys| && c.keys[k].grouping == BySample(every)
  }

  /** The series of the first `n` points that are sampled with this period. */
  function DeviceSeries(c: Config, plans: seq<PointPlan>, slots: seq<S.Totals>, stale: bool, every: int, now: int,
      wall: int, bytes: Sizes, n: nat): (r: seq<Series>)
    requires n <= |c.keys| == |plans| == |slots|
    decreases n
  {
    if n == 0 then []
    else
      var k := n - 1;
      DeviceSeries(c, plans, slots, stale, every, now, wall, bytes, k)
      + (if SampledEvery(c, k, every) then PointSeries(c.keys[k].topic, k, plans[k], slots[k], stale, now, wall,
          bytes) else [])
  }

  lemma {:induction false} AggregateTopics(topic: nat, k: nat, aggregates: seq<Aggregate>, sample: S.Sample,
      wall: int, bytes: Sizes)
    ensures forall x | x in AggregateSeries(topic, k, aggregates, sample, wall, bytes) :: x.topic == topic
    decreases |aggregates|
  {
    if aggregates != [] {
      AggregateTopics(topic, k, aggregates[..|aggregates| - 1], sample, wall, bytes);
    }
  }

  lemma {:induction false} DeviceTopics(c: Config, plans: seq<PointPlan>, slots: seq<S.Totals>, stale: bool,
      every: int, now: int, wall: int, bytes: Sizes, n: nat)
    requires n <= |c.keys| == |plans| == |slots| && forall k | 0 <= k < |c.keys| :: c.keys[k].topic < |c.groupBytes|
    ensures forall x | x in DeviceSeries(c, plans, slots, stale, every, now, wall, bytes, n) :: x.topic < |c.groupBytes|
    decreases n
  {
    if n > 0 {
      var k := n - 1;
      DeviceTopics(c, plans, slots, stale, every, now, wall, bytes, k);
      var sample := S.Sampled(S.Closed(slots[k], now as real));
      if sample.Some? {
        AggregateTopics(c.keys[k].topic, k, plans[k].aggregates, sample.value, wall, bytes);
      }
    }
  }

  lemma NoSeries(c: Config, plans: seq<PointPlan>, slots: seq<S.Totals>, stale: bool, every: int, now: int,
      wall: int, bytes: Sizes)
    requires |c.keys| == |plans| == |slots|
    ensures DeviceSeries(c, plans, slots, stale, every, now, wall, bytes, 0) == []
  {
  }

  lemma MoreSeries(c: Config, plans: seq<PointPlan>, slots: seq<S.Totals>, stale: bool, every: int, now: int,
      wall: int, bytes: Sizes, k: nat)
    requires k < |c.keys| == |plans| == |slots|
    ensures var before, point := DeviceSeries(c, plans, slots, stale, every, now, wall, bytes, k),
                                 PointSeries(c.keys[k].topic, k, plans[k], slots[k], stale, now, wall, bytes);
            DeviceSeries(c, plans, slots, stale, every, now, wall, bytes, k + 1)
            == if SampledEvery(c, k, every) then before + point else before
  {
    hide PointSeries;
  }

  // ---- what happened to a point ----

  /** The value of the last reading that gave or ended one. */
  function Given(h: seq<S.Event>): Option<real> {
    if h == [] then None
    else
      var e := h[|h| - 1];
      if e.Offer? then e.value else Given(h[..|h| - 1])
  }

  /** A slot is what its point's history makes of it; without aggregates only the value matters. */
  ghost predicate Tells(plan: PointPlan, start: real, h: seq<S.Event>, slot: S.Totals, stale: bool) {
    && stale == S.LinkIsStale(h)
    && (if plan.aggregates == [] then slot.value == Given(h) else slot == S.Run(start, h).slot)
  }

  lemma NothingTold(plan: PointPlan, start: real)
    ensures Tells(plan, start, [], S.Started(start), false)
  {
  }

  /** One thing more happens to a point. */
  lemma TellsMore(plan: PointPlan, start: real, h: seq<S.Event>, slot: S.Totals, stale: bool, e: S.Event,
      after: S.Totals)
    requires Tells(plan, start, h, slot, stale)
    requires if plan.aggregates != [] then after == S.Step(S.State(slot, stale), e).slot
             else if e.Offer? then after.value == e.value else after == slot
    ensures Tells(plan, start, h + [e], after, if e.Link? then e.stale else stale)
  {
    hide S.Step, S.Unwound, S.Latest, S.LastTouch, S.Clocked;
    var more := h + [e];
    assert more[..|more| - 1] == h;
    S.UnwoundSlot(start, h);
    S.RunStep(start, more);
  }

  // ---- what a sample says about it ----

  /** An aggregate over the time from a sample up to the next, on a clock that counts only its steps forward. */
  ghost predicate IsAggregate(a: Aggregate, x: real, start: real, h: seq<S.Event>, now: real) {
    var clock := S.Unwound(start, h);
    var from, upto := S.LastTaken(0.0, clock), S.Latest(0.0, clock) + S.Forward(S.LastTouch(start, h), now);
    match a
    case Mean => S.IsMean(x, S.Integral(clock, from, upto), S.GoodTime(clock, from, upto))
    case Min => x in S.SeenSince(h) && forall y | y in S.SeenSince(h) :: x <= y
    case Max => x in S.SeenSince(h) && forall y | y in S.SeenSince(h) :: y <= x
    case Last => Some(x) == S.ValueAfter(h)
  }

  /** The time since the last sample in which the point held a value. */
  ghost function GoodSince(start: real, h: seq<S.Event>, now: real): real {
    var clock := S.Unwound(start, h);
    S.GoodTime(clock, S.LastTaken(0.0, clock), S.Latest(0.0, clock) + S.Forward(S.LastTouch(start, h), now))
  }

  /** One series per aggregate, in order; there is no last value if the point holds none. */
  ghost predicate AreAggregates(pieces: seq<Piece>, k: nat, aggregates: seq<Aggregate>, start: real,
      h: seq<S.Event>, now: int, wall: int, bytes: Sizes)
    decreases |aggregates|
  {
    if aggregates == [] then pieces == []
    else
      var front, a := aggregates[..|aggregates| - 1], aggregates[|aggregates| - 1];
      if a.Last? && S.ValueAfter(h).None? then AreAggregates(pieces, k, front, start, h, now, wall, bytes)
      else
        && pieces != []
        && var x := pieces[|pieces| - 1].value;
           && IsAggregate(a, x, start, h, now as real)
           && pieces[|pieces| - 1] == Piece(k, x, wall, bytes(k, Some(a), x))
           && AreAggregates(pieces[..|pieces| - 1], k, front, start, h, now, wall, bytes)
  }

  /** What a sample publishes of a point: the value it was given while the link is up, or its aggregates. */
  ghost predicate Reports(pieces: seq<Piece>, k: nat, plan: PointPlan, start: real, h: seq<S.Event>, now: int,
      wall: int, bytes: Sizes) {
    if plan.aggregates != [] then
      if GoodSince(start, h, now as real) > 0.0
      then AreAggregates(pieces, k, plan.aggregates, start, h, now, wall, bytes)
      else pieces == []
    else if S.LinkIsStale(h) || Given(h).None? then pieces == []
    else pieces == [Piece(k, Given(h).value, wall, bytes(k, None, Given(h).value))]
  }

  /** The part of a sample with this period that point `k` has. */
  ghost predicate Reported(c: Config, plans: seq<PointPlan>, every: int, start: real, history: seq<seq<S.Event>>,
      k: nat, pieces: seq<Piece>, now: int, wall: int, bytes: Sizes)
    requires k < |c.keys| == |plans| == |history|
  {
    if c.keys[k].grouping == BySample(every) then Reports(pieces, k, plans[k], start, history[k], now, wall, bytes)
    else pieces == []
  }

  /** The parts of the first `n` points in a topic, one after the other. */
  function Gathered(c: Config, reports: seq<seq<Piece>>, n: nat, t: nat): seq<Piece>
    requires n <= |reports| == |c.keys|
  {
    if n == 0 then []
    else Gathered(c, reports, n - 1, t) + (if c.keys[n - 1].topic == t then reports[n - 1] else [])
  }

  function PiecesOf(series: seq<Series>): (r: seq<Piece>)
    ensures |r| == |series|
  {
    seq(|series|, i requires 0 <= i < |series| => series[i].piece)
  }

  lemma {:induction false} AggregatesAre(topic: nat, k: nat, aggregates: seq<Aggregate>, sample: S.Sample,
      start: real, h: seq<S.Event>, now: int, wall: int, bytes: Sizes)
    requires S.Sampled(S.Closed(S.Run(start, h).slot, now as real)) == Some(sample)
    ensures AreAggregates(PiecesOf(AggregateSeries(topic, k, aggregates, sample, wall, bytes)), k, aggregates, start,
        h, now, wall, bytes)
    decreases |aggregates|
  {
    if aggregates != [] {
      var front, a := aggregates[..|aggregates| - 1], aggregates[|aggregates| - 1];
      AggregatesAre(topic, k, front, sample, start, h, now, wall, bytes);
      AggregateIs(a, sample, start, h, now);
      var before, all := AggregateSeries(topic, k, front, sample, wall, bytes),
                         AggregateSeries(topic, k, aggregates, sample, wall, bytes);
      if AggregateOf(a, sample).Some? {
        assert PiecesOf(all)[..|all| - 1] == PiecesOf(before);
      } else {
        assert all == before;
      }
    }
  }

  lemma AggregateIs(a: Aggregate, sample: S.Sample, start: real, h: seq<S.Event>, now: int)
    requires S.Sampled(S.Closed(S.Run(start, h).slot, now as real)) == Some(sample)
    ensures AggregateOf(a, sample).None? <==> a.Last? && S.ValueAfter(h).None?
    ensures AggregateOf(a, sample).Some? ==> IsAggregate(a, AggregateOf(a, sample).value, start, h, now as real)
  {
    hide S.Unwound, S.LastTaken, S.Latest, S.Integral, S.GoodTime, S.LastTouch, S.SeenSince, S.ValueAfter, S.Run,
      S.IsMean, S.Sampled, S.Closed, S.Forward;
    S.SampleOnAnyClock(start, h, now as real);
  }

  /** The series of a point are what happened to it since the last sample. */
  lemma PointReports(topic: nat, k: nat, plan: PointPlan, start: real, h: seq<S.Event>, slot: S.Totals, stale: bool,
      now: int, wall: int, bytes: Sizes)
    requires Tells(plan, start, h, slot, stale)
    ensures Reports(PiecesOf(PointSeries(topic, k, plan, slot, stale, now, wall, bytes)), k, plan, start, h, now,
        wall, bytes)
  {
    if plan.aggregates != [] {
      S.SampleOnAnyClock(start, h, now as real);
      var sample := S.Sampled(S.Closed(slot, now as real));
      if sample.Some? {
        AggregatesAre(topic, k, plan.aggregates, sample.value, start, h, now, wall, bytes);
      }
      hide S.Unwound, S.LastTaken, S.Latest, S.Integral, S.GoodTime, S.LastTouch, S.SeenSince, S.ValueAfter, S.Run;
    }
  }

  lemma {:induction false} DeviceGathers(c: Config, plans: seq<PointPlan>, slots: seq<S.Totals>, stale: bool,
      every: int, now: int, wall: int, bytes: Sizes, reports: seq<seq<Piece>>, n: nat, t: nat)
    requires n <= |c.keys| == |plans| == |slots| == |reports|
    requires forall k | 0 <= k < n ::
               reports[k] == if SampledEvery(c, k, every)
               then PiecesOf(PointSeries(c.keys[k].topic, k, plans[k], slots[k], stale, now, wall, bytes)) else []
    ensures Of(DeviceSeries(c, plans, slots, stale, every, now, wall, bytes, n), t) == Gathered(c, reports, n, t)
    decreases n
  {
    hide PointSeries;
    if n > 0 {
      var k := n - 1;
      DeviceGathers(c, plans, slots, stale, every, now, wall, bytes, reports, k, t);
      var before := DeviceSeries(c, plans, slots, stale, every, now, wall, bytes, k);
      if SampledEvery(c, k, every) {
        var more := PointSeries(c.keys[k].topic, k, plans[k], slots[k], stale, now, wall, bytes);
        PointTopic(c.keys[k].topic, k, plans[k], slots[k], stale, now, wall, bytes);
        OfMore(before, more, c.keys[k].topic, t);
      } else {
        assert DeviceSeries(c, plans, slots, stale, every, now, wall, bytes, n) == before;
      }
    }
  }

  lemma PointTopic(topic: nat, k: nat, plan: PointPlan, slot: S.Totals, stale: bool, now: int, wall: int, bytes: Sizes)
    ensures forall x | x in PointSeries(topic, k, plan, slot, stale, now, wall, bytes) :: x.topic == topic
  {
    var sample := S.Sampled(S.Closed(slot, now as real));
    if sample.Some? {
      AggregateTopics(topic, k, plan.aggregates, sample.value, wall, bytes);
    }
  }

  lemma {:induction false} OfMore(series: seq<Series>, more: seq<Series>, topic: nat, t: nat)
    requires forall x | x in more :: x.topic == topic
    ensures Of(series + more, t) == Of(series, t) + (if topic == t then PiecesOf(more) else [])
    decreases |more|
  {
    if more == [] {
      assert series + more == series;
    } else {
      var front := more[..|more| - 1];
      assert more[|more| - 1] in more;
      OfMore(series, front, topic, t);
      assert (series + more)[..|series + more| - 1] == series + front;
      assert PiecesOf(more) == PiecesOf(front) + [more[|more| - 1].piece];
    }
  }

  // ---- a device ----

  ghost predicate AllTold(plans: seq<PointPlan>, start: real, history: seq<seq<S.Event>>, slots: seq<S.Totals>,
      stale: bool) {
    && |plans| == |history| == |slots|
    && forall k | 0 <= k < |plans| :: Tells(plans[k], start, history[k], slots[k], stale)
  }

  /** Something other than a link happens to one point. */
  lemma ToldMore(plans: seq<PointPlan>, start: real, history: seq<seq<S.Event>>, slots: seq<S.Totals>, stale: bool,
      k: nat, e: S.Event, after: S.Totals)
    requires AllTold(plans, start, history, slots, stale) && k < |plans| && !e.Link?
    requires if plans[k].aggregates != [] then after == S.Step(S.State(slots[k], stale), e).slot
             else if e.Offer? then after.value == e.value else after == slots[k]
    ensures AllTold(plans, start, history[k := history[k] + [e]], slots[k := after], stale)
  {
    hide S.Step, Tells;
    TellsMore(plans[k], start, history[k], slots[k], stale, e, after);
  }

  /** A link or a sample concerns several points. */
  lemma AllToldMore(plans: seq<PointPlan>, start: real, history: seq<seq<S.Event>>, slots: seq<S.Totals>, stale: bool,
      e: S.Event, concerned: nat -> bool, after: seq<S.Totals>, more: seq<seq<S.Event>>)
    requires AllTold(plans, start, history, slots, stale) && |after| == |more| == |plans| && !e.Offer?
    requires e.Link? ==> forall k :: concerned(k)
    requires forall k | 0 <= k < |plans| ::
               && after[k] == (if concerned(k) && plans[k].aggregates != []
                               then S.Step(S.State(slots[k], stale), e).slot else slots[k])
               && more[k] == if concerned(k) then history[k] + [e] else history[k]
    ensures AllTold(plans, start, more, after, if e.Link? then e.stale else stale)
  {
    hide S.Step, Tells;
    forall k | 0 <= k < |plans|
      ensures Tells(plans[k], start, more[k], after[k], if e.Link? then e.stale else stale)
    {
      if concerned(k) {
        TellsMore(plans[k], start, history[k], slots[k], stale, e, after[k]);
      }
    }
  }

  /** The parts of a sample, by point. */
  lemma DeviceReports(c: Config, plans: seq<PointPlan>, start: real, history: seq<seq<S.Event>>, slots: seq<S.Totals>,
      stale: bool, every: int, now: int, wall: int, bytes: Sizes) returns (reports: seq<seq<Piece>>)
    requires |c.keys| == |plans| && AllTold(plans, start, history, slots, stale)
    ensures |reports| == |plans| && forall k | 0 <= k < |plans| ::
              Reported(c, plans, every, start, history, k, reports[k], now, wall, bytes)
    ensures forall t: nat ::
              Of(DeviceSeries(c, plans, slots, stale, every, now, wall, bytes, |plans|), t)
              == Gathered(c, reports, |plans|, t)
  {
    hide PointSeries, Reports, Tells, DeviceSeries, Of, Gathered;
    reports := seq(|plans|, k requires 0 <= k < |plans| =>
        if SampledEvery(c, k, every)
        then PiecesOf(PointSeries(c.keys[k].topic, k, plans[k], slots[k], stale, now, wall, bytes)) else []);
    forall k | 0 <= k < |plans|
      ensures Reported(c, plans, every, start, history, k, reports[k], now, wall, bytes)
    {
      PointReports(c.keys[k].topic, k, plans[k], start, history[k], slots[k], stale, now, wall, bytes);
    }
    forall t: nat
      ensures Of(DeviceSeries(c, plans, slots, stale, every, now, wall, bytes, |plans|), t)
              == Gathered(c, reports, |plans|, t)
    {
      DeviceGathers(c, plans, slots, stale, every, now, wall, bytes, reports, |plans|, t);
    }
  }

  // ---- several samples ----

  datatype Sampler = Sampler(every: int, next: int)

  /** A sampler that is due publishes its points' parts, another nothing. */
  ghost predicate OneSample(c: Config, plans: seq<PointPlan>, s: Sampler, start: real, history: seq<seq<S.Event>>,
      reports: seq<seq<Piece>>, now: int, wall: int, bytes: Sizes)
    requires |c.keys| == |plans| == |history|
  {
    |reports| == |plans| && forall k | 0 <= k < |plans| ::
      if s.next > now then reports[k] == []
      else Reported(c, plans, s.every, start, history, k, reports[k], now, wall, bytes)
  }

  /** A sample depends on the history of its own points alone. */
  lemma SameTold(c: Config, plans: seq<PointPlan>, s: Sampler, start: real, told: seq<seq<S.Event>>,
      history: seq<seq<S.Event>>, reports: seq<seq<Piece>>, now: int, wall: int, bytes: Sizes)
    requires |c.keys| == |plans| == |told| == |history|
    requires OneSample(c, plans, s, start, history, reports, now, wall, bytes)
    requires s.next <= now ==> forall k | 0 <= k < |plans| && SampledEvery(c, k, s.every) :: history[k] == told[k]
    ensures OneSample(c, plans, s, start, told, reports, now, wall, bytes)
  {
    hide Reports;
    forall k | 0 <= k < |plans| && s.next <= now
      ensures Reported(c, plans, s.every, start, told, k, reports[k], now, wall, bytes)
    {
      assert Reported(c, plans, s.every, start, history, k, reports[k], now, wall, bytes);
    }
  }

  /** What samplers publish in a topic, one after the other. */
  function GatheredAll(c: Config, reports: seq<seq<seq<Piece>>>, t: nat): seq<Piece>
    requires forall r | r in reports :: |r| == |c.keys|
    decreases |reports|
  {
    if reports == [] then []
    else GatheredAll(c, reports[..|reports| - 1], t) + Gathered(c, reports[|reports| - 1], |c.keys|, t)
  }

  lemma {:induction false} NothingGatheredUpTo(c: Config, reports: seq<seq<Piece>>, n: nat, t: nat)
    requires n <= |reports| == |c.keys| && forall r | r in reports :: r == []
    ensures Gathered(c, reports, n, t) == []
  {
    if n > 0 {
      NothingGatheredUpTo(c, reports, n - 1, t);
      assert reports[n - 1] in reports;
    }
  }

  lemma NothingGathered(c: Config, reports: seq<seq<Piece>>)
    requires |reports| == |c.keys| && forall r | r in reports :: r == []
    ensures forall t: nat :: Gathered(c, reports, |c.keys|, t) == []
  {
    forall t: nat
      ensures Gathered(c, reports, |c.keys|, t) == []
    {
      NothingGatheredUpTo(c, reports, |c.keys|, t);
    }
  }

  lemma GatheredMore(c: Config, reports: seq<seq<seq<Piece>>>, parts: seq<seq<Piece>>)
    requires |parts| == |c.keys| && forall r | r in reports :: |r| == |c.keys|
    ensures forall r | r in reports + [parts] :: |r| == |c.keys|
    ensures forall t: nat ::
              GatheredAll(c, reports + [parts], t) == GatheredAll(c, reports, t) + Gathered(c, parts, |c.keys|, t)
  {
    assert (reports + [parts])[..|reports + [parts]| - 1] == reports;
  }
}
