/** The batcher as it works: one device's open messages, changed in place. */
module Batcher {
  import opened Common
  import opened Batch
  import opened BatchReports
  import opened BatchSample
  import BatchRuns
  import S = BatchSlot

  datatype Quality = Good | Bad | Stale

  datatype Value = Missing | Number(n: real) | NotFinite | Flag(on: bool) | Text

  datatype Reading = Reading(point: nat, value: Value, ts: int, quality: Quality)

  /** The number a reading puts in a measurement, if any. */
  function SeriesValue(measurable: bool, includeBoolean: bool, r: Reading): (v: Option<real>)
    ensures v.Some? <==>
            measurable && r.quality.Good? && (r.value.Number? || (r.value.Flag? && includeBoolean))
    ensures v.Some? ==>
              if r.value.Number? then v.value == r.value.n
              else (r.value.on ==> v.value == 1.0) && (!r.value.on ==> v.value == 0.0)
  {
    if !measurable || !r.quality.Good? then None
    else match r.value
      case Number(n) => Some(n)
      case Flag(on) => if includeBoolean then Some(if on then 1.0 else 0.0) else None
      case _ => None
  }

  datatype Routing = Routing(sample: bool, measured: bool)

  ghost predicate OnePerPeriod(samplers: seq<Sampler>) {
    forall i, j | 0 <= i < j < |samplers| :: samplers[i].every != samplers[j].every
  }

  /** The sampler's next turn: one period on, counted from `now` if even that has passed. */
  function Rescheduled(s: Sampler, now: int): (r: Sampler)
    ensures s.every > 0 ==> r.next > now
    ensures s.next > now ==> r == s
    ensures s.next <= now && s.next + s.every > now ==> r == Sampler(s.every, s.next + s.every)
    ensures s.next + s.every <= now && s.every > 0 ==> r == Sampler(s.every, now + s.every)
  {
    if s.next > now then s
    else s.(next := if s.next + s.every <= now then now + s.every else s.next + s.every)
  }

  // ---- the device ----

  class Device {
    const config: Config
    const plans: seq<PointPlan>
    const includeBoolean: bool
    const bytes: Sizes
    const depth: array<nat>
    var open: map<GroupKey, seq<Layer>>
    var order: seq<GroupKey>
    var lastLayer: map<GroupKey, int>
    var out: seq<Message>
    var slots: seq<S.Totals>
    var samplers: seq<Sampler>
    var stale: bool
    ghost var log: seq<Accepted>
    ghost const start: real
    /** What happened to each point: readings its slot heard of, links, and samples. */
    ghost var history: seq<seq<S.Event>>

    ghost function Snapshot(): State
      reads this, depth
    {
      State(depth[..], open, order, lastLayer, out, log)
    }

    ghost predicate Valid()
      reads this, depth
    {
      && |slots| == |plans| == |config.keys| == |history| && Shaped(config, Snapshot())
      && (forall k | 0 <= k < |config.keys| :: config.keys[k].topic < |config.groupBytes|)
      && OnePerPeriod(samplers) && AllTold(plans, start, history, slots, stale)
    }

    constructor (config: Config, plans: seq<PointPlan>, includeBoolean: bool, bytes: Sizes, samplers: seq<Sampler>,
        now: int)
      requires |plans| == |config.keys| && forall k | 0 <= k < |config.keys| ::
                 config.keys[k].topic < |config.groupBytes|
      requires OnePerPeriod(samplers)
      ensures Valid() && fresh(depth) && Snapshot() == Fresh(config) && !stale && this.samplers == samplers
      ensures this.config == config && this.plans == plans && this.includeBoolean == includeBoolean
              && this.bytes == bytes
      ensures forall k | 0 <= k < |slots| :: slots[k] == S.Started(now as real) && history[k] == []
    {
      this.config, this.plans, this.includeBoolean, this.bytes := config, plans, includeBoolean, bytes;
      depth := new nat[|config.keys|](_ => 0);
      open, order, lastLayer, out, log := map[], [], map[], [], [];
      slots, stale := seq(|config.keys|, _ => S.Started(now as real)), false;
      this.samplers := samplers;
      start, history := now as real, seq(|config.keys|, _ => []);
      new;
      forall k | 0 <= k < |plans|
        ensures Tells(plans[k], start, history[k], slots[k], stale)
      {
        NothingTold(plans[k], start);
      }
      assert depth[..] == Fresh(config).depth;
      FreshShaped(config);
    }

    /** Publish an open message. */
    method Close(key: GroupKey)
      requires Valid()
      modifies this`open, this`order, this`lastLayer, this`out, this`log, depth
      ensures Valid() && Snapshot() == Batch.Close(old(Snapshot()), key)
    {
      hide Shaped, InLayers, ClearedDepth, Sent;
      CloseShaped(config, Snapshot(), key);
      if key in open {
        var layers := open[key];
        OwnPoints(config, Snapshot(), key);
        open := open - {key};
        order := Without(order, [key]);
        PublishLayers(key, layers);
      }
    }

    /** The layers in order, and their points start again. */
    method PublishLayers(key: GroupKey, layers: seq<Layer>)
      requires forall i, k | 0 <= i < |layers| && k in layers[i].points :: k < depth.Length
      modifies this`out, depth
      ensures depth[..] == ClearedDepth(old(depth[..]), layers) && out == old(out) + Sent(key, layers)
    {
      hide ClearedDepth, Cleared, InLayers;
      ghost var was := depth[..];
      NothingCleared(was, layers);
      for i := 0 to |layers|
        invariant depth[..] == ClearedDepth(was, layers[..i]) && out == old(out) + Sent(key, layers[..i])
      {
        var l := layers[i];
        ClearPoints(l.points);
        ClearOneMore(was, layers, i);
        assert layers[..i + 1][..i] == layers[..i];
        if l.pieces != [] {
          out := out + [Message(key, l.time, l.pieces)];
        }
      }
      assert layers[..|layers|] == layers;
    }

    /** The points of a published layer start again. */
    method ClearPoints(points: seq<nat>)
      requires forall k | k in points :: k < depth.Length
      modifies depth
      ensures depth[..] == Cleared(old(depth[..]), points)
    {
      for j := 0 to |points|
        invariant depth[..] == Cleared(old(depth[..]), points[..j])
      {
        assert points[j] in points;
        depth[points[j]] := 0;
        assert points[..j + 1] == points[..j] + [points[j]];
      }
      assert points[..|points|] == points;
    }

    /** One value more for the messages of its key. */
    method Add(piece: Piece, now: int)
      requires Valid() && Batched(config, piece.point)
      modifies this`open, this`order, this`lastLayer, this`out, this`log, depth
      ensures Valid() && Snapshot() == Batch.Add(config, old(Snapshot()), piece, now)
    {
      hide AllTold, Sized, SentFit, Put, ClearedDepth, Sent;
      ghost var before := Snapshot();
      AddShaped(config, before, piece, now);
      ReadyShaped(config, before, piece, now);
      var key := config.keys[piece.point];
      var since := now;
      if key in open {
        assert Indexed(config, before, key);
        var first := open[key][0];
        var close;
        if key.grouping.ByFrame? {
          if first.since + key.grouping.window <= now {
            close := true;
          } else if depth[piece.point] >= MAX_LAYERS {
            since := first.since;
            close := true;
          } else {
            close := false;
          }
        } else {
          close := depth[piece.point] > 0 || first.time != piece.ts;
        }
        if close {
          Close(key);
        }
      }
      assert Snapshot() == Closing(config, before, piece, now);
      var layer := depth[piece.point];
      if layer == (if key in open then |open[key]| else 0) {
        Stack(key, piece.ts, since);
      }
      assert Snapshot() == Ready(config, before, piece, now);
      PutPiece(key, layer, piece);
    }

    /** One more layer on the key's message, which is opened with it if there is none. */
    method Stack(key: GroupKey, ts: int, since: int)
      modifies this`open, this`order, this`lastLayer
      ensures Snapshot() == OpenLayer(old(Snapshot()), key, ts, since)
    {
      var layers := if key in open then open[key] else [];
      var time := ts;
      if key.grouping.ByFrame? {
        if key in lastLayer && ts <= lastLayer[key] {
          time := lastLayer[key] + 1;
        }
        lastLayer := lastLayer[key := time];
      }
      order := if key in open then order else order + [key];
      open := open[key := layers + [Layer(time, if layers == [] then since else layers[0].since, [], [])]];
    }

    /** Put a value on its layer; a body that would get too long is published first. */
    method PutPiece(key: GroupKey, i: nat, piece: Piece)
      requires piece.point < depth.Length && i < |LayersOf(Snapshot(), key)|
      modifies this`open, this`order, this`lastLayer, this`out, this`log, depth
      ensures Snapshot() == Put(config, old(Snapshot()), key, i, piece)
    {
      var layers := open[key];
      var layer := layers[i];
      var body := layer.pieces;
      if Overflows(config, key.topic, body, piece) {
        out := out + [Message(key, layer.time, body)];
        body := [];
      }
      open := open[key := layers[i := layer.(pieces := body + [piece], points := layer.points + [piece.point])]];
      depth[piece.point] := depth[piece.point] + 1;
      log := log + [Accepted(key, piece, layer.time)];
    }

    /**
     * What becomes of a reading: its number goes to a message or to the point's slot, a reading of poor
     * quality ends what the slot holds, and one of an unknown point is only routed.
     */
    method Offer(r: Reading, now: int) returns (routing: Routing)
      requires Valid()
      modifies this`open, this`order, this`lastLayer, this`out, this`log, this`slots, this`history, depth
      ensures Valid()
      ensures r.point >= |config.keys| ==>
                && routing == Routing(true, false) && Snapshot() == old(Snapshot()) && slots == old(slots)
                && history == old(history)
      ensures r.point < |config.keys| ==>
                var k, value := r.point, SeriesValue(plans[r.point].measurable, includeBoolean, r);
                && routing == Routing(plans[k].sample, value.Some?)
                && Snapshot() == (if value.Some? && Batched(config, k)
                    then Batch.Add(config, old(Snapshot()), Piece(k, value.value, r.ts, bytes(k, None, value.value)),
                      now)
                                  else old(Snapshot()))
                && slots == (if value.None? && !r.quality.Good?
                    then old(slots)[k := S.Holding(old(slots)[k], None, now as real)]
                             else if value.None? || Batched(config, k) then old(slots)
                             else if plans[k].aggregates == [] then old(slots)[k := old(slots)[k].(value := value)]
                             else old(slots)[k := S.Holding(old(slots)[k], value, now as real)])
                && history == (if (value.Some? && !Batched(config, k)) || (value.None? && !r.quality.Good?)
                    then old(history)[k := old(history)[k] + [S.Offer(value, now as real)]] else old(history))
    {
      hide AllTold;
      if r.point >= |config.keys| { return Routing(true, false); }
      var k := r.point;
      var value := SeriesValue(plans[k].measurable, includeBoolean, r);
      if value.None? {
        if !r.quality.Good? {
          ghost var held := S.Holding(slots[k], None, now as real);
          ToldMore(plans, start, history, slots, stale, k, S.Offer(None, now as real), held);
          slots := slots[k := S.Holding(slots[k], None, now as real)];
          history := history[k := history[k] + [S.Offer(None, now as real)]];
        }
        return Routing(plans[k].sample, false);
      }
      if config.keys[k].grouping.BySample? {
        ghost var held := if plans[k].aggregates != [] then S.Holding(slots[k], value, now as real)
                          else slots[k].(value := value);
        ToldMore(plans, start, history, slots, stale, k, S.Offer(value, now as real), held);
        if plans[k].aggregates != [] {
          slots := slots[k := S.Holding(slots[k], value, now as real)];
        } else {
          slots := slots[k := slots[k].(value := value)];
        }
        history := history[k := history[k] + [S.Offer(value, now as real)]];
      } else {
        Add(Piece(k, value.value, r.ts, bytes(k, None, value.value)), now);
      }
      return Routing(plans[k].sample, true);
    }

    /** The link going down ends what the slots with aggregates hold. Each slot is a step further in its run. */
    method SetStale(down: bool, now: int)
      requires Valid()
      modifies this`slots, this`stale, this`history
      ensures Valid() && stale == down
      ensures forall k | 0 <= k < |slots| ::
                slots[k] == if plans[k].aggregates == [] then old(slots)[k]
                            else S.Step(S.State(old(slots)[k], old(stale)), S.Link(down, now as real)).slot
      ensures forall k | 0 <= k < |slots| :: history[k] == old(history)[k] + [S.Link(down, now as real)]
    {
      if down && !stale {
        for k := 0 to |plans|
          invariant |slots| == |plans| && history == old(history)
          invariant forall i | 0 <= i < |slots| ::
                      slots[i] == if i < k && plans[i].aggregates != []
                          then S.Holding(old(slots)[i], None, now as real) else old(slots)[i]
        {
          if plans[k].aggregates != [] {
            slots := slots[k := S.Holding(slots[k], None, now as real)];
          }
        }
      }
      stale := down;
      ghost var told := history;
      history := seq(|told|, k requires 0 <= k < |told| => told[k] + [S.Link(down, now as real)]);
      AllToldMore(plans, start, old(history), old(slots), old(stale), S.Link(down, now as real), (k: nat) => true,
          slots, history);
    }

    /** One period's sample: the series of its points, packed, and their slots start again. */
    method TakeSample(every: int, now: int, wall: int)
      returns (ghost published: seq<Message>, ghost reports: seq<seq<Piece>>)
      requires Valid()
      modifies this`slots, this`out, this`history
      ensures Valid() && out == old(out) + published
      ensures forall m | m in published :: Proper(config, every, wall, m)
      ensures |reports| == |plans| && forall k | 0 <= k < |plans| ::
                Reported(config, plans, every, start, old(history), k, reports[k], now, wall, bytes)
      ensures forall t: nat | t < |config.groupBytes| ::
                && Carried(published, t) == Gathered(config, reports, |plans|, t)
                && Tight(config, t, BodiesOf(published, t))
      ensures forall k | 0 <= k < |slots| ::
                slots[k] == if SampledEvery(config, k, every) && plans[k].aggregates != []
                            then S.Step(S.State(old(slots)[k], stale), S.Take(now as real)).slot else old(slots)[k]
      ensures forall k | 0 <= k < |slots| :: history[k] ==
                if SampledEvery(config, k, every) then old(history)[k] + [S.Take(now as real)] else old(history)[k]
    {
      hide Shaped, PointSeries, DeviceSeries, Of, Carried, Proper, S.Closed, S.Restarted, AllTold, Gathered, Tight,
        BodiesOf;
      ghost var was := Snapshot();
      var series := [];
      NoSeries(config, plans, slots, stale, every, now, wall, bytes);
      for k := 0 to |plans|
        invariant |slots| == |plans| && out == old(out) && history == old(history)
        invariant series == DeviceSeries(config, plans, old(slots), stale, every, now, wall, bytes, k)
        invariant forall i | 0 <= i < |slots| ::
                    slots[i] == if i < k && SampledEvery(config, i, every) && plans[i].aggregates != []
                                then S.Restarted(S.Closed(old(slots)[i], now as real), now as real) else old(slots)[i]
      {
        MoreSeries(config, plans, old(slots), stale, every, now, wall, bytes, k);
        if config.keys[k].grouping == BySample(every) {
          series := series + PointSeries(config.keys[k].topic, k, plans[k], slots[k], stale, now, wall, bytes);
          if plans[k].aggregates != [] {
            slots := slots[k := S.Restarted(S.Closed(slots[k], now as real), now as real)];
          }
        }
      }
      DeviceTopics(config, plans, old(slots), stale, every, now, wall, bytes, |plans|);
      var messages := Pack(config, every, wall, series);
      published := messages;
      out := out + messages;
      SentMore(config, was, every, wall, messages);
      assert Snapshot() == was.(out := was.out + messages);
      reports := DeviceReports(config, plans, start, old(history), old(slots), stale, every, now, wall, bytes);
      ghost var told := history;
      history := seq(|told|, k requires 0 <= k < |told| =>
          if SampledEvery(config, k, every) then told[k] + [S.Take(now as real)] else told[k]);
      AllToldMore(plans, start, old(history), old(slots), stale, S.Take(now as real),
          (k: nat) => SampledEvery(config, k, every), slots, history);
    }

    /** One sampler's turn, if it is due. */
    method TakeTurn(i: nat, now: int, wall: int) returns (ghost published: seq<Message>, ghost reports: seq<seq<Piece>>)
      requires Valid() && i < |samplers|
      modifies this`slots, this`out, this`samplers, this`history
      ensures Valid() && samplers == old(samplers)[i := Rescheduled(old(samplers)[i], now)]
      ensures out == old(out) + published && |reports| == |config.keys|
      ensures OneSample(config, plans, old(samplers)[i], start, old(history), reports, now, wall, bytes)
      ensures forall t: nat | t < |config.groupBytes| :: Carried(published, t) ==
                Gathered(config, reports, |config.keys|, t)
      ensures var s := old(samplers)[i]; forall k | 0 <= k < |slots| ::
                && slots[k] == (if s.next <= now && SampledEvery(config, k, s.every) && plans[k].aggregates != []
                                then S.Step(S.State(old(slots)[k], stale), S.Take(now as real)).slot
                                else old(slots)[k])
                && history[k] == if s.next <= now && SampledEvery(config, k, s.every)
                                 then old(history)[k] + [S.Take(now as real)] else old(history)[k]
    {
      hide Shaped, S.Step, Carried, AllTold, Reported, Gathered;
      var s := samplers[i];
      published, reports := [], seq(|plans|, _ => []);
      NothingGathered(config, reports);
      NoneGathered(config);
      if s.next <= now {
        published, reports := TakeSample(s.every, now, wall);
        var next := s.next + s.every;
        if next <= now {
          next := now + s.every;
        }
        samplers := samplers[i := Sampler(s.every, next)];
        SamePeriods(old(samplers), samplers);
      }
    }

    /** Each sampler's turn. */
    method TakeSamples(now: int, wall: int) returns (ghost samples: seq<Message>, ghost reports: seq<seq<seq<Piece>>>)
      requires Valid()
      modifies this`slots, this`out, this`samplers, this`history
      ensures Valid() && |samplers| == |old(samplers)| && out == old(out) + samples
      ensures forall i | 0 <= i < |samplers| :: samplers[i] == Rescheduled(old(samplers)[i], now)
      ensures forall r | r in reports :: |r| == |config.keys|
      ensures |reports| == |old(samplers)| && forall i | 0 <= i < |reports| ::
                OneSample(config, plans, old(samplers)[i], start, old(history), reports[i], now, wall, bytes)
      ensures forall t: nat | t < |config.groupBytes| :: Carried(samples, t) == GatheredAll(config, reports, t)
      ensures TakenFrom(config, plans, old(samplers), |old(samplers)|, stale, now, old(slots), old(history), slots,
                history)
    {
      hide Shaped, S.Step, Carried, OnePerPeriod, TakenFrom, AllTold, OneSample, GatheredAll, Gathered, Rescheduled,
        Snapshot;
      ghost var held, periods, told := slots, samplers, history;
      samples, reports := [], [];
      NoneGathered(config);
      NoneTaken(config, plans, periods, stale, now, held, told);
      for i := 0 to |samplers|
        invariant Valid() && |samplers| == |periods| && out == old(out) + samples
        invariant forall j | 0 <= j < |samplers| ::
                    samplers[j] == if j < i then Rescheduled(periods[j], now) else periods[j]
        invariant TakenFrom(config, plans, periods, i, stale, now, held, told, slots, history)
        invariant forall r | r in reports :: |r| == |config.keys|
        invariant |reports| == i && forall j | 0 <= j < i ::
                    OneSample(config, plans, periods[j], start, told, reports[j], now, wall, bytes)
        invariant forall t: nat | t < |config.groupBytes| :: Carried(samples, t) == GatheredAll(config, reports, t)
      {
        ghost var before, was := slots, history;
        ghost var more, parts := TakeTurn(i, now, wall);
        OneMoreTaken(config, plans, periods, i, stale, now, held, told, before, was, slots, history);
        CarriedConcat(samples, more);
        GatheredMore(config, reports, parts);
        SameTold(config, plans, periods[i], start, told, was, parts, now, wall, bytes);
        samples := samples + more;
        reports := reports + [parts];
      }
    }

    /** First the frames whose time is up, then each sampler's turn; when it returns, nothing waits to be published. */
    method PublishDue(now: int, wall: int)
      returns (ghost samples: seq<Message>, ghost reports: seq<seq<seq<Piece>>>)
      requires Valid()
      modifies this`open, this`order, this`lastLayer, this`out, this`log, this`slots, this`samplers, this`history, depth
      ensures Valid() && |samplers| == |old(samplers)|
      ensures forall i | 0 <= i < |samplers| :: samplers[i] == Rescheduled(old(samplers)[i], now)
      ensures (forall s | s in samplers :: s.every > 0) ==> !AnythingDue(now)
      ensures var closed := ClosePass(old(Snapshot()), Due(now)); Snapshot() == closed.(out := closed.out + samples)
      ensures forall r | r in reports :: |r| == |config.keys|
      ensures |reports| == |old(samplers)| && forall i | 0 <= i < |reports| ::
                OneSample(config, plans, old(samplers)[i], start, old(history), reports[i], now, wall, bytes)
      ensures forall t: nat | t < |config.groupBytes| :: Carried(samples, t) == GatheredAll(config, reports, t)
      ensures TakenFrom(config, plans, old(samplers), |old(samplers)|, stale, now, old(slots), old(history), slots,
                history)
    {
      hide Shaped, ClosePass, S.Step, Carried, OnePerPeriod, TakenFrom, AllTold, OneSample, GatheredAll;
      ghost var before, periods := Snapshot(), samplers;
      Publish(Due(now));
      NoneEnded(config, before, now);
      ghost var closed := Snapshot();
      samples, reports := TakeSamples(now, wall);
      assert Snapshot() == closed.(out := closed.out + samples);
      SameOpenSameEnded(closed, Snapshot(), now);
      NoSampleDue(periods, samplers, now);
    }

    /** A frame has ended or a sample is due. */
    ghost predicate AnythingDue(now: int)
      reads this, depth
    {
      AnyEnded(Snapshot(), order, now) || AnySampleDue(samplers, now)
    }

    /** The earliest time something is due: from then on, and not before. */
    method NextDeadline() returns (at: Option<int>)
      requires Valid()
      ensures forall now :: AnythingDue(now) <==> at.Some? && at.value <= now
    {
      hide Shaped, AnyEnded, AnySampleDue;
      at := NextFrameEnd();
      NoSamplers();
      for i := 0 to |samplers|
        invariant forall now :: (AnyEnded(Snapshot(), order, now) || AnySampleDue(samplers[..i], now)) <==>
                  at.Some? && at.value <= now
      {
        AnySampleStep(samplers, i);
        assert forall now :: (AnyEnded(Snapshot(), order, now) || AnySampleDue(samplers[..i], now)) <==>
            at.Some? && at.value <= now;
        var next := samplers[i].next;
        at := if at.Some? && at.value <= next then at else Some(next);
      }
      assert samplers[..|samplers|] == samplers;
    }

    /** Publish the open messages a pass is for. */
    method Publish(pass: Pass)
      requires Valid()
      modifies this`open, this`order, this`lastLayer, this`out, this`log, depth
      ensures Valid() && Snapshot() == ClosePass(old(Snapshot()), pass)
    {
      var keys := ChosenNow(pass);
      for i := 0 to |keys|
        invariant Valid() && Snapshot() == CloseKeys(old(Snapshot()), keys[..i])
      {
        assert keys[..i + 1][..i] == keys[..i];
        Close(keys[i]);
      }
      assert keys[..|keys|] == keys;
    }

    method ChosenNow(pass: Pass) returns (keys: seq<GroupKey>)
      ensures keys == Chosen(Snapshot(), pass, order)
    {
      keys := Chosen(State(depth[..], open, order, lastLayer, out, []), pass, order);
      SameOpenSameChoice(State(depth[..], open, order, lastLayer, out, []), Snapshot(), pass, order);
    }

    /** The earliest time a frame's window ends: from then on, and not before, a pass has a frame to publish. */
    method NextFrameEnd() returns (end: Option<int>)
      requires Valid()
      ensures forall now :: AnyEnded(Snapshot(), order, now) <==> end.Some? && end.value <= now
    {
      end := None;
      for i := 0 to |order|
        invariant forall now :: AnyEnded(Snapshot(), order[..i], now) <==> end.Some? && end.value <= now
      {
        var key := order[i];
        assert Indexed(config, Snapshot(), key) && key in order;
        assert order[..i + 1] == order[..i] + [key];
        ghost var s, seen := Snapshot(), order[..i];
        assert forall now :: AnyEnded(s, seen + [key], now) <==>
            AnyEnded(s, seen, now) || Selected(s, Due(now), key) by {
          AnyEndedStep(s, seen, key);
        }
        if key.grouping.ByFrame? {
          var at := open[key][0].since + key.grouping.window;
          end := if end.Some? && end.value <= at then end else Some(at);
        }
      }
      assert order[..|order|] == order;
    }
  }

  /** A frame among these has ended. */
  ghost predicate AnyEnded(s: State, keys: seq<GroupKey>, now: int) {
    exists key | key in keys :: Selected(s, Due(now), key)
  }

  lemma AnyEndedStep(s: State, keys: seq<GroupKey>, key: GroupKey)
    ensures forall now :: AnyEnded(s, keys + [key], now) <==> AnyEnded(s, keys, now) || Selected(s, Due(now), key)
  {
    hide Selected;
    forall now
      ensures AnyEnded(s, keys + [key], now) <==> AnyEnded(s, keys, now) || Selected(s, Due(now), key)
    {
      assert forall x :: x in keys + [key] <==> x in keys || x == key;
      assert key in keys + [key];
    }
  }

  predicate AnySampleDue(samplers: seq<Sampler>, now: int) {
    exists s | s in samplers :: s.next <= now
  }

  lemma NoSamplers()
    ensures forall now :: !AnySampleDue([], now)
  {
  }

  lemma AnySampleStep(samplers: seq<Sampler>, i: nat)
    requires i < |samplers|
    ensures forall now {:trigger AnySampleDue(samplers[..i + 1], now)} ::
              AnySampleDue(samplers[..i + 1], now) <==> AnySampleDue(samplers[..i], now) || samplers[i].next <= now
  {
    var last := samplers[i];
    assert samplers[..i + 1] == samplers[..i] + [last];
    forall now
      ensures AnySampleDue(samplers[..i + 1], now) <==> AnySampleDue(samplers[..i], now) || last.next <= now
    {
      assert forall s :: s in samplers[..i + 1] <==> s in samplers[..i] || s == last;
      assert last in samplers[..i + 1];
    }
  }

  lemma NoSampleDue(before: seq<Sampler>, after: seq<Sampler>, now: int)
    requires |after| == |before| && forall i | 0 <= i < |after| :: after[i] == Rescheduled(before[i], now)
    ensures (forall s | s in after :: s.every > 0) ==> !AnySampleDue(after, now)
  {
    forall s | s in after && s.every > 0
      ensures s.next > now
    {
      var i :| 0 <= i < |after| && after[i] == s;
      assert before[i].every == s.every;
    }
  }

  lemma SamePeriods(a: seq<Sampler>, b: seq<Sampler>)
    requires OnePerPeriod(a) && |a| == |b| && forall i | 0 <= i < |a| :: b[i].every == a[i].every
    ensures OnePerPeriod(b)
  {
  }

  // ---- samplers in turn ----

  /** A due one of the first `n` samplers takes point `k`. */
  predicate Taken(c: Config, samplers: seq<Sampler>, n: nat, k: nat, now: int)
    requires n <= |samplers|
  {
    exists i | 0 <= i < n :: SampledEvery(c, k, samplers[i].every) && samplers[i].next <= now
  }

  lemma TakenStep(c: Config, samplers: seq<Sampler>, i: nat, now: int)
    requires i < |samplers| && OnePerPeriod(samplers)
    ensures forall k: nat :: Taken(c, samplers, i + 1, k, now) <==>
              Taken(c, samplers, i, k, now) || (SampledEvery(c, k, samplers[i].every) && samplers[i].next <= now)
    ensures forall k: nat | SampledEvery(c, k, samplers[i].every) :: !Taken(c, samplers, i, k, now)
  {
    forall k: nat
      ensures Taken(c, samplers, i + 1, k, now) <==>
              Taken(c, samplers, i, k, now) || (SampledEvery(c, k, samplers[i].every) && samplers[i].next <= now)
    {
    }
  }

  /** The due ones of the first `n` samplers have taken their points, and nothing else happened. */
  ghost predicate TakenFrom(c: Config, plans: seq<PointPlan>, samplers: seq<Sampler>, n: nat, stale: bool, now: int,
      held: seq<S.Totals>, told: seq<seq<S.Event>>, slots: seq<S.Totals>, history: seq<seq<S.Event>>)
    requires n <= |samplers|
  {
    && |plans| == |held| == |told| == |slots| == |history|
    && forall k | 0 <= k < |plans| ::
         && slots[k] == (if Taken(c, samplers, n, k, now) && plans[k].aggregates != []
                         then S.Step(S.State(held[k], stale), S.Take(now as real)).slot else held[k])
         && history[k] == if Taken(c, samplers, n, k, now) then told[k] + [S.Take(now as real)] else told[k]
  }

  lemma NoneTaken(c: Config, plans: seq<PointPlan>, samplers: seq<Sampler>, stale: bool, now: int,
      held: seq<S.Totals>, told: seq<seq<S.Event>>)
    requires |plans| == |held| == |told|
    ensures TakenFrom(c, plans, samplers, 0, stale, now, held, told, held, told)
  {
  }

  /** The next sampler takes points no earlier one took. */
  lemma OneMoreTaken(c: Config, plans: seq<PointPlan>, samplers: seq<Sampler>, i: nat, stale: bool, now: int,
      held: seq<S.Totals>, told: seq<seq<S.Event>>, before: seq<S.Totals>, was: seq<seq<S.Event>>,
      slots: seq<S.Totals>, history: seq<seq<S.Event>>)
    requires i < |samplers| && OnePerPeriod(samplers) && |slots| == |history| == |plans|
    requires TakenFrom(c, plans, samplers, i, stale, now, held, told, before, was)
    requires var s := samplers[i]; forall k | 0 <= k < |slots| ::
               && slots[k] == (if s.next <= now && SampledEvery(c, k, s.every) && plans[k].aggregates != []
                               then S.Step(S.State(before[k], stale), S.Take(now as real)).slot else before[k])
               && history[k] == if s.next <= now && SampledEvery(c, k, s.every) then was[k] + [S.Take(now as real)]
                                else was[k]
    ensures TakenFrom(c, plans, samplers, i + 1, stale, now, held, told, slots, history)
    ensures forall k | 0 <= k < |plans| && SampledEvery(c, k, samplers[i].every) :: was[k] == told[k]
  {
    hide S.Step, SampledEvery;
    TakenStep(c, samplers, i, now);
    hide Taken;
  }

  lemma NoneGathered(c: Config)
    ensures forall t: nat :: Carried([], t) == GatheredAll(c, [], t) == []
  {
  }

  lemma CarriedConcat(a: seq<Message>, b: seq<Message>)
    ensures forall t: nat :: Carried(a + b, t) == Carried(a, t) + Carried(b, t)
  {
    forall t: nat
      ensures Carried(a + b, t) == Carried(a, t) + Carried(b, t)
    {
      CarriedBoth(a, b, t);
    }
  }

  lemma {:induction false} CarriedBoth(a: seq<Message>, b: seq<Message>, t: nat)
    ensures Carried(a + b, t) == Carried(a, t) + Carried(b, t)
    decreases |b|
  {
    if b == [] {
      assert a + b == a;
    } else {
      assert (a + b)[..|a + b| - 1] == a + b[..|b| - 1];
      CarriedBoth(a, b[..|b| - 1], t);
    }
  }

  /** Messages of a sample keep the shape of the device. */
  lemma SentMore(c: Config, s: State, every: int, wall: int, messages: seq<Message>)
    requires Shaped(c, s) && forall m | m in messages :: Proper(c, every, wall, m)
    ensures Shaped(c, s.(out := s.out + messages))
  {
    hide Fits;
    var after := s.(out := s.out + messages);
    forall key
      ensures Indexed(c, after, key) && Sized(c, after, key)
    {
      assert Indexed(c, s, key) && Sized(c, s, key) && LayersOf(after, key) == LayersOf(s, key);
    }
  }

  /** After the pass no frame has ended. */
  lemma NoneEnded(c: Config, s: State, now: int)
    requires Shaped(c, s)
    ensures var after := ClosePass(s, Due(now)); !AnyEnded(after, after.order, now)
  {
    var after := ClosePass(s, Due(now));
    CloseKeysShaped(c, s, Chosen(s, Due(now), s.order));
    forall key | key in after.order
      ensures !Selected(after, Due(now), key)
    {
      assert Indexed(c, after, key);
      BatchRuns.PassLeaves(c, s, Due(now), key);
    }
  }

  lemma SameOpenSameEnded(a: State, b: State, now: int)
    requires a.open == b.open && a.order == b.order
    ensures AnyEnded(a, a.order, now) <==> AnyEnded(b, b.order, now)
    ensures forall key :: LayersOf(a, key) == LayersOf(b, key)
  {
    assert forall key :: Selected(a, Due(now), key) <==> Selected(b, Due(now), key);
  }

  function Cleared(depth: seq<nat>, points: seq<nat>): (r: seq<nat>)
    ensures |r| == |depth|
  {
    seq(|depth|, k requires 0 <= k < |depth| => if k in points then 0 else depth[k])
  }

  /** The points of an open message are points of the device. */
  lemma OwnPoints(c: Config, s: State, key: GroupKey)
    requires Shaped(c, s) && key in s.open
    ensures forall i, k | 0 <= i < |s.open[key]| && k in s.open[key][i].points :: k < |s.depth|
  {
    assert Indexed(c, s, key);
    forall i, k | 0 <= i < |s.open[key]| && k in s.open[key][i].points
      ensures k < |s.depth|
    {
      var l := s.open[key][i];
      assert l in s.open[key] && HoldsOwn(c, key, l);
    }
  }

  lemma NothingCleared(depth: seq<nat>, layers: seq<Layer>)
    ensures ClearedDepth(depth, layers[..0]) == depth
  {
  }

  lemma ClearOneMore(depth: seq<nat>, layers: seq<Layer>, i: nat)
    requires i < |layers|
    ensures Cleared(ClearedDepth(depth, layers[..i]), layers[i].points) == ClearedDepth(depth, layers[..i + 1])
  {
    assert layers[..i + 1] == layers[..i] + [layers[i]];
  }

  lemma {:induction false} SameOpenSameChoice(a: State, b: State, pass: Pass, order: seq<GroupKey>)
    requires a.open == b.open
    ensures Chosen(a, pass, order) == Chosen(b, pass, order)
    decreases |order|
  {
    if order != [] {
      SameOpenSameChoice(a, b, pass, order[..|order| - 1]);
      SameOpenSameInsert(a, b, pass, Chosen(a, pass, order[..|order| - 1]), order[|order| - 1]);
    }
  }

  lemma {:induction false} SameOpenSameInsert(a: State, b: State, pass: Pass, keys: seq<GroupKey>, key: GroupKey)
    requires a.open == b.open
    ensures Insert(a, pass, keys, key) == Insert(b, pass, keys, key)
    decreases |keys|
  {
    if keys != [] {
      SameOpenSameInsert(a, b, pass, keys[..|keys| - 1], key);
    }
  }
}
