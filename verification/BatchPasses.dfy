/**
 * What one reading and one pass do to the batcher's open messages: when a message is closed or split,
 * the time of a new layer, and what each pass publishes in which order.
 */
module BatchPasses {
  import opened Common
  import opened Batch
  import opened BatchRuns

  // ---- sizes ----

  function SumOfSizes(pieces: seq<Piece>): nat
    decreases |pieces|
  {
    if pieces == [] then 0 else pieces[0].size + SumOfSizes(pieces[1..])
  }

  lemma {:induction false} SumSnoc(pieces: seq<Piece>, piece: Piece)
    ensures SumOfSizes(pieces + [piece]) == SumOfSizes(pieces) + piece.size
    decreases |pieces|
  {
    if pieces == [] {
      assert [piece][1..] == [] && pieces + [piece] == [piece];
    } else {
      assert (pieces + [piece])[1..] == pieces[1..] + [piece];
      SumSnoc(pieces[1..], piece);
    }
  }

  lemma {:induction false} BodyBytesAre(pieces: seq<Piece>)
    ensures BodyBytes(pieces) == SumOfSizes(pieces) + if pieces == [] then 0 else |pieces| - 1
    decreases |pieces|
  {
    if pieces != [] {
      var front := pieces[..|pieces| - 1];
      BodyBytesAre(front);
      SumSnoc(front, pieces[|pieces| - 1]);
      assert front + [pieces[|pieces| - 1]] == pieces;
    }
  }

  /**
   * A message may be published if it holds a single series, or if its frame, its group's name, its series with
   * a comma between them and twelve bytes for each come to no more than 15000 bytes.
   */
  lemma FitsExactly(c: Config, topic: nat, pieces: seq<Piece>)
    ensures Fits(c, topic, pieces) <==>
            || |pieces| <= 1
            || 39 + (if topic < |c.groupBytes| then c.groupBytes[topic] else 0)
                 + SumOfSizes(pieces) + (|pieces| - 1) + 12 * |pieces| <= 15_000
  {
    BodyBytesAre(pieces);
  }

  lemma OverflowsIs(c: Config, topic: nat, pieces: seq<Piece>, piece: Piece)
    ensures Overflows(c, topic, pieces, piece) <==> !Fits(c, topic, pieces + [piece])
  {
    var more := pieces + [piece];
    assert more[..|more| - 1] == pieces;
  }

  // ---- one reading ----

  /**
   * The open message cannot take the reading: a frame whose window has ended or whose layers the point has
   * used up, or a `time` message of another time or with a value of the point.
   */
  predicate Ends(layers: seq<Layer>, key: GroupKey, depth: nat, ts: int, now: int) {
    layers != [] &&
    if key.grouping.ByFrame? then layers[0].since + key.grouping.window <= now || depth >= 64
    else depth > 0 || layers[0].time != ts
  }

  /** The time of a new layer: the reading's in a `time` message, and in a frame the next one free from then on. */
  ghost predicate NextTime(log: seq<Accepted>, key: GroupKey, ts: int, time: int) {
    if !key.grouping.ByFrame? then time == ts
    else
      && time >= ts && (forall a | a in log && a.key == key :: a.time < time)
      && (time == ts || exists a | a in log && a.key == key :: a.time == time - 1)
  }

  /** A key's latest layer is the latest time of its readings. */
  ghost predicate LatestLogged(s: State, key: GroupKey) {
    key.grouping.ByFrame? ==>
      && (key in s.lastLayer <==> exists a | a in s.log :: a.key == key)
      && (key in s.lastLayer ==>
            && (exists a | a in s.log :: a.key == key && a.time == s.lastLayer[key])
            && forall a | a in s.log && a.key == key :: a.time <= s.lastLayer[key])
  }

  ghost predicate Logged(s: State) {
    forall key :: LatestLogged(s, key)
  }

  /** A reading in a layer of its own, after `kept`. */
  ghost predicate OnNewLayer(s: State, after: State, key: GroupKey, kept: seq<Layer>, piece: Piece, since: int) {
    var layers := LayersOf(after, key);
    && |layers| == |kept| + 1 && layers[..|kept|] == kept
    && NextTime(s.log, key, piece.ts, layers[|kept|].time)
    && layers[|kept|] == Layer(layers[|kept|].time, since, [piece], [piece.point])
    && after.log == s.log + [Accepted(key, piece, layers[|kept|].time)]
  }

  /** A reading on layer `d` of an open message, whose full body is published first. */
  ghost predicate OnLayer(c: Config, s: State, after: State, key: GroupKey, d: nat, piece: Piece)
    requires d < |LayersOf(s, key)|
  {
    var before := LayersOf(s, key);
    var l := before[d];
    var full := !Fits(c, key.topic, l.pieces + [piece]);
    && LayersOf(after, key) == before[d := Layer(l.time, l.since, (if full then [] else l.pieces) + [piece],
        l.points + [piece.point])]
    && after.out == s.out + (if full then [Message(key, l.time, l.pieces)] else [])
    && after.log == s.log + [Accepted(key, piece, l.time)]
  }

  lemma CloseIs(s: State, key: GroupKey)
    requires key in s.open <==> LayersOf(s, key) != []
    ensures var after := Close(s, key);
            && LayersOf(after, key) == [] && after.out == s.out + Sent(key, LayersOf(s, key))
            && after.log == s.log && after.lastLayer == s.lastLayer
            && forall other | other != key :: LayersOf(after, other) == LayersOf(s, other)
  {
  }

  /** Opening a layer and putting a reading on it. */
  lemma NewLayerIs(c: Config, s: State, key: GroupKey, piece: Piece, since: int)
    requires piece.point < |s.depth| && LatestLogged(s, key)
    ensures var kept := LayersOf(s, key);
            var stacked := OpenLayer(s, key, piece.ts, since);
            && |LayersOf(stacked, key)| == |kept| + 1
            && var after := Put(c, stacked, key, |kept|, piece);
               && OnNewLayer(s, after, key, kept, piece, if kept == [] then since else kept[0].since)
               && after.out == s.out && LatestLogged(after, key)
               && (forall other | other != key ::
                     LayersOf(after, other) == LayersOf(s, other)
                     && (other in after.lastLayer <==> other in s.lastLayer)
                     && (other in s.lastLayer ==> after.lastLayer[other] == s.lastLayer[other]))
  {
    hide Estimate, BodyBytes;
    var kept := LayersOf(s, key);
    var stacked := OpenLayer(s, key, piece.ts, since);
    assert LayersOf(stacked, key)[|kept|].pieces == [];
    var after := Put(c, stacked, key, |kept|, piece);
    var layers := LayersOf(after, key);
    assert layers[..|kept|] == kept && [] + [piece] == [piece] && [] + [piece.point] == [piece.point];
    forall a
      ensures a in after.log <==> a in s.log || a == Accepted(key, piece, layers[|kept|].time)
    {
    }
    assert NextTime(s.log, key, piece.ts, layers[|kept|].time);
  }

  lemma OnLayerIs(c: Config, s: State, key: GroupKey, d: nat, piece: Piece)
    requires piece.point < |s.depth| && d < |LayersOf(s, key)|
    ensures var after := Put(c, s, key, d, piece);
            && OnLayer(c, s, after, key, d, piece)
            && after.lastLayer == s.lastLayer && after.log == s.log + [Accepted(key, piece, LayersOf(s, key)[d].time)]
            && forall other | other != key :: LayersOf(after, other) == LayersOf(s, other)
  {
    OverflowsIs(c, key.topic, LayersOf(s, key)[d].pieces, piece);
    hide Overflows, Fits;
    assert s.out + [] == s.out;
  }

  // ---- what is known of the open messages ----

  /** `a` comes before `b` in a list. */
  ghost predicate Precedes<T>(list: seq<T>, a: T, b: T) {
    exists i, j | 0 <= i < j < |list| :: list[i] == a && list[j] == b
  }

  ghost predicate Distinct<T>(list: seq<T>) {
    forall i, j | 0 <= i < j < |list| :: list[i] != list[j]
  }

  /** No layer is empty. */
  ghost predicate Filled(s: State, key: GroupKey) {
    forall l | l in LayersOf(s, key) :: l.pieces != []
  }

  ghost predicate Known(s: State) {
    Distinct(s.order) && forall key :: LatestLogged(s, key) && Filled(s, key)
  }

  /** The messages of some layers, in order. */
  ghost function Messages(key: GroupKey, layers: seq<Layer>): seq<Message> {
    seq(|layers|, i requires 0 <= i < |layers| => Message(key, layers[i].time, layers[i].pieces))
  }

  lemma {:induction false} SentIs(key: GroupKey, layers: seq<Layer>)
    requires forall l | l in layers :: l.pieces != []
    ensures Sent(key, layers) == Messages(key, layers)
    decreases |layers|
  {
    if layers != [] {
      SentIs(key, layers[..|layers| - 1]);
      assert Messages(key, layers)
          == Messages(key, layers[..|layers| - 1]) + [Messages(key, layers)[|layers| - 1]];
      assert layers[|layers| - 1] in layers;
    }
  }

  /** Taking one out keeps the others in order. */
  lemma {:induction false} WithoutOne<T(!new)>(list: seq<T>, x: T)
    requires Distinct(list)
    ensures var r := Without(list, [x]); Distinct(r) && forall a, b :: Precedes(r, a, b) <==>
              Precedes(list, a, b) && a != x && b != x
  {
    if list != [] {
      var rest := list[1..];
      WithoutOne(rest, x);
      forall a, b
        ensures Precedes(list, a, b) <==> Precedes(rest, a, b) || (a == list[0] && b in rest)
      {
        FirstPrecedes(list, a, b);
      }
      var r := Without(rest, [x]);
      if list[0] != x {
        forall a, b
          ensures Precedes([list[0]] + r, a, b) <==> Precedes(r, a, b) || (a == list[0] && b in r)
        {
          assert ([list[0]] + r)[1..] == r;
          FirstPrecedes([list[0]] + r, a, b);
        }
      } else {
        assert x !in rest;
        forall a, b
          ensures Precedes(rest, a, b) ==> a != x && b != x
        {
        }
      }
    }
  }

  lemma FirstPrecedes<T>(list: seq<T>, a: T, b: T)
    requires list != []
    ensures Precedes(list, a, b) <==> Precedes(list[1..], a, b) || (a == list[0] && b in list[1..])
  {
    var rest := list[1..];
    if Precedes(list, a, b) {
      var i, j :| 0 <= i < j < |list| && list[i] == a && list[j] == b;
      assert rest[j - 1] == b;
      if i > 0 {
        assert rest[i - 1] == a;
      }
    }
    if Precedes(rest, a, b) {
      var i, j :| 0 <= i < j < |rest| && rest[i] == a && rest[j] == b;
      assert list[i + 1] == a && list[j + 1] == b;
    }
    if a == list[0] && b in rest {
      var j :| 0 <= j < |rest| && rest[j] == b;
      assert list[j + 1] == b;
    }
  }

  lemma CloseKnown(s: State, key: GroupKey)
    requires Known(s) && (key in s.open <==> LayersOf(s, key) != [])
    ensures Known(Close(s, key))
  {
    hide Sent, Precedes, ClearedDepth, Distinct;
    WithoutOne(s.order, key);
    var after := Close(s, key);
    forall other
      ensures LatestLogged(after, other) && Filled(after, other)
    {
      assert LatestLogged(s, other) && Filled(s, other);
    }
  }

  lemma OtherLogged(s: State, after: State, a: Accepted, other: GroupKey)
    requires after.log == s.log + [a] && a.key != other && LatestLogged(s, other)
    requires other in after.lastLayer <==> other in s.lastLayer
    requires other in s.lastLayer ==> after.lastLayer[other] == s.lastLayer[other]
    ensures LatestLogged(after, other)
  {
    forall x: Accepted | x.key == other
      ensures x in after.log <==> x in s.log
    {
    }
  }

  lemma NewLayerKnown(c: Config, s: State, key: GroupKey, piece: Piece, since: int)
    requires piece.point < |s.depth| && Known(s) && (key in s.open <==> key in s.order)
    ensures |LayersOf(OpenLayer(s, key, piece.ts, since), key)| == |LayersOf(s, key)| + 1
    ensures Known(Put(c, OpenLayer(s, key, piece.ts, since), key, |LayersOf(s, key)|, piece))
  {
    var kept := LayersOf(s, key);
    assert LatestLogged(s, key) && Filled(s, key);
    NewLayerIs(c, s, key, piece, since);
    hide NextTime, Overflows, LatestLogged;
    var stacked := OpenLayer(s, key, piece.ts, since);
    var after := Put(c, stacked, key, |kept|, piece);
    var layers := LayersOf(after, key);
    assert Distinct(after.order);
    forall other
      ensures LatestLogged(after, other) && Filled(after, other)
    {
      assert LatestLogged(s, other) && Filled(s, other);
      if other == key {
        assert layers == kept + [layers[|kept|]];
      } else {
        OtherLogged(s, after, after.log[|s.log|], other);
      }
    }
  }

  lemma OnLayerKnown(c: Config, s: State, key: GroupKey, d: nat, piece: Piece)
    requires piece.point < |s.depth| && d < |LayersOf(s, key)| && Known(s) && LayersRise(s, key)
    ensures Known(Put(c, s, key, d, piece))
  {
    var before, after := LayersOf(s, key), Put(c, s, key, d, piece);
    assert LatestLogged(s, key) && Filled(s, key);
    OnLayerIs(c, s, key, d, piece);
    var a := Accepted(key, piece, before[d].time);
    assert forall x :: x in after.log <==> x in s.log || x == a;
    assert LatestLogged(after, key);
    hide Put, Overflows, Fits, LatestLogged;
    assert after.order == s.order by { PutOrder(c, s, key, d, piece); }
    forall other
      ensures LatestLogged(after, other) && Filled(after, other)
    {
      assert LatestLogged(s, other) && Filled(s, other);
      if other != key {
        OtherLogged(s, after, a, other);
      }
    }
  }

  lemma PutOrder(c: Config, s: State, key: GroupKey, d: nat, piece: Piece)
    requires piece.point < |s.depth| && d < |LayersOf(s, key)|
    ensures Put(c, s, key, d, piece).order == s.order
  {
    hide Overflows;
  }

  /** The reading begins a message, adds a layer to the open one, or goes on a layer that is there. */
  ghost predicate Added(c: Config, s: State, after: State, piece: Piece, now: int)
    requires Batched(c, piece.point) && |s.depth| == |c.keys|
  {
    var key, d := c.keys[piece.point], s.depth[piece.point];
    var before := LayersOf(s, key);
    if Ends(before, key, d, piece.ts, now) then
      && after.out == s.out + Messages(key, before)
      && after.order == Without(s.order, [key]) + [key]
      && OnNewLayer(s, after, key, [], piece,
          if key.grouping.ByFrame? && now < before[0].since + key.grouping.window then before[0].since else now)
    else if d >= |before| then
      && after.out == s.out
      && after.order == (if before == [] then s.order + [key] else s.order)
      && OnNewLayer(s, after, key, before, piece, if before == [] then now else before[0].since)
    else OnLayer(c, s, after, key, d, piece) && after.order == s.order
  }

  /**
   * One reading. A message that cannot take it is published whole and a new one begun, whose window goes on when
   * only its layers ran out; else it goes on the first layer without a value of its point, a new one if there is none,
   * and the body of that layer is published first when the reading does not fit. Nothing else changes.
   */
  lemma AddExactly(c: Config, s: State, piece: Piece, now: int)
    requires Shaped(c, s) && Batched(c, piece.point) && Known(s) && Timed(c, s)
    ensures var key, after := c.keys[piece.point], Add(c, s, piece, now);
            && Added(c, s, after, piece, now) && Known(after)
            && forall other | other != key :: LayersOf(after, other) == LayersOf(s, other)
  {
    hide Fits, Overflows, Sized, SentFit, NextTime, Precedes, Sent, ClearedDepth, Known, OnLayer, Timed,
      LayersRise, Messages, Put;
    var key, d := c.keys[piece.point], s.depth[piece.point];
    var before, after := LayersOf(s, key), Add(c, s, piece, now);
    assert Indexed(c, s, key) && LatestLogged(s, key) && Filled(s, key) by { KnownIs(s, key); }
    ReadyShaped(c, s, piece, now);
    CloseShaped(c, s, key);
    CloseKnown(s, key);
    CloseIs(s, key);
    SentIs(key, before);
    var closed := Closing(c, s, piece, now);
    var since := MustClose(s, key, d, piece.ts, now).1;
    var kept := LayersOf(closed, key);
    assert Ends(before, key, d, piece.ts, now) <==> MustClose(s, key, d, piece.ts, now).0;
    assert Shaped(c, closed);
    assert Indexed(c, closed, key);
    if closed.depth[piece.point] == |kept| {
      KnownIs(closed, key);
      NewLayerIs(c, closed, key, piece, since);
      NewLayerKnown(c, closed, key, piece, since);
      PutOrder(c, OpenLayer(closed, key, piece.ts, since), key, |kept|, piece);
    } else {
      assert LayersRise(s, key) by { TimedIs(c, s, key); }
      OnLayerIs(c, s, key, d, piece);
      OnLayerKnown(c, s, key, d, piece);
      PutOrder(c, s, key, d, piece);
    }
  }

  lemma KnownIs(s: State, key: GroupKey)
    requires Known(s)
    ensures LatestLogged(s, key) && Filled(s, key)
  {
  }

  lemma TimedIs(c: Config, s: State, key: GroupKey)
    requires Timed(c, s)
    ensures LayersRise(s, key)
  {
  }

  // ---- one pass ----

  /** The messages of several keys, one key after the other. */
  ghost function AllMessages(s: State, keys: seq<GroupKey>): seq<Message> {
    if keys == [] then []
    else
      var last := keys[|keys| - 1];
      AllMessages(s, keys[..|keys| - 1]) + Messages(last, LayersOf(s, last))
  }

  lemma {:induction false} CloseKeysSends(s: State, keys: seq<GroupKey>)
    requires Known(s) && Distinct(keys) && forall key :: key in s.open <==> LayersOf(s, key) != []
    ensures var after := CloseKeys(s, keys);
            Known(after) && after.out == s.out + AllMessages(s, keys) && after.lastLayer == s.lastLayer
    decreases |keys|
  {
    hide Known, Sent, Messages;
    if keys != [] {
      var front, last := keys[..|keys| - 1], keys[|keys| - 1];
      CloseKeysSends(s, front);
      var closed := CloseKeys(s, front);
      forall key
        ensures LayersOf(closed, key) == (if key in front then [] else LayersOf(s, key))
                && (key in closed.open <==> key in s.open && key !in front)
      {
        CloseKeysLeaves(s, front, key);
      }
      CloseKnown(closed, last);
      CloseIs(closed, last);
      KnownIs(s, last);
      SentIs(last, LayersOf(s, last));
      hide Close;
    }
  }

  /** Keys a pass has no preference between stay in the order their messages were opened in. */
  ghost predicate Stable(s: State, pass: Pass, order: seq<GroupKey>, keys: seq<GroupKey>) {
    forall i, j | 0 <= i < j < |keys| :: NotAfter(s, pass, keys[j], keys[i]) ==> Precedes(order, keys[i], keys[j])
  }

  lemma {:induction false} InsertStable(s: State, pass: Pass, order: seq<GroupKey>, keys: seq<GroupKey>, key: GroupKey)
    requires Stable(s, pass, order, keys) && Distinct(keys)
    requires key !in keys && forall x | x in keys :: Precedes(order, x, key)
    ensures Stable(s, pass, order, Insert(s, pass, keys, key)) && Distinct(Insert(s, pass, keys, key))
    decreases |keys|
  {
    hide NotAfter, Precedes;
    if keys != [] {
      var front, last := keys[..|keys| - 1], keys[|keys| - 1];
      assert keys == front + [last];
      if !NotAfter(s, pass, last, key) {
        InsertStable(s, pass, order, front, key);
        assert forall x | x in front :: x != last && (NotAfter(s, pass, last, x) ==> Precedes(order, x, last));
        StableSnoc(s, pass, order, Insert(s, pass, front, key), last);
      } else {
        StableSnoc(s, pass, order, keys, key);
      }
    } else {
      StableSnoc(s, pass, order, [], key);
    }
  }

  lemma StableSnoc(s: State, pass: Pass, order: seq<GroupKey>, keys: seq<GroupKey>, last: GroupKey)
    requires Stable(s, pass, order, keys) && Distinct(keys)
    requires forall x | x in keys :: x != last && (NotAfter(s, pass, last, x) ==> Precedes(order, x, last))
    ensures Stable(s, pass, order, keys + [last]) && Distinct(keys + [last])
  {
    hide NotAfter, Precedes;
  }

  lemma {:induction false} ChosenStable(s: State, pass: Pass, order: seq<GroupKey>)
    requires Distinct(order)
    ensures Stable(s, pass, order, Chosen(s, pass, order)) && Distinct(Chosen(s, pass, order))
    decreases |order|
  {
    hide NotAfter, Selected;
    if order != [] {
      var front, last := order[..|order| - 1], order[|order| - 1];
      ChosenStable(s, pass, front);
      var keys := Chosen(s, pass, front);
      assert Stable(s, pass, order, keys) by { LaterToo(front, last); assert order == front + [last]; }
      forall x | x in keys
        ensures Precedes(order, x, last) && x != last
      {
        var i :| 0 <= i < |front| && front[i] == x;
        assert order[i] == x && order[|order| - 1] == last;
      }
      InsertStable(s, pass, order, keys, last);
    }
  }

  lemma LaterToo<T>(list: seq<T>, last: T)
    ensures forall a, b | Precedes(list, a, b) :: Precedes(list + [last], a, b)
  {
    forall a, b | Precedes(list, a, b)
      ensures Precedes(list + [last], a, b)
    {
      var i, j :| 0 <= i < j < |list| && list[i] == a && list[j] == b;
      assert (list + [last])[i] == a && (list + [last])[j] == b;
    }
  }

  /** The end of a runtime pass is for `time` messages, a flush for all, and a time for the frames it ends. */
  predicate IsFor(pass: Pass, key: GroupKey, since: int) {
    match pass
    case EndOfPass => key.grouping.ByTime?
    case FlushAll => true
    case Due(now) => key.grouping.ByFrame? && since + key.grouping.window <= now
  }

  /**
   * One pass. It publishes whole messages: the `time` ones, all of them, or the frames whose window has ended by then,
   * each once, ended frames by the start of their window, then by topic, then as they were opened. It leaves the
   * others as they were.
   */
  lemma PassPublishes(c: Config, s: State, pass: Pass) returns (keys: seq<GroupKey>)
    requires Shaped(c, s) && Known(s)
    ensures forall key :: key in keys <==> LayersOf(s, key) != [] && IsFor(pass, key, LayersOf(s, key)[0].since)
    ensures Distinct(keys)
    ensures forall i, j | 0 <= i < j < |keys| ::
              var since, later := LayersOf(s, keys[i])[0].since, LayersOf(s, keys[j])[0].since;
              if pass.Due? && since != later then since < later
              else keys[i].topic < keys[j].topic
                   || (keys[i].topic == keys[j].topic && Precedes(s.order, keys[i], keys[j]))
    ensures var after := ClosePass(s, pass);
            && after.out == s.out + AllMessages(s, keys) && after.log == s.log && Known(after)
            && forall key :: LayersOf(after, key) == if key in keys then [] else LayersOf(s, key)
  {
    keys := Chosen(s, pass, s.order);
    ChosenStable(s, pass, s.order);
    ChosenInOrder(s, pass, s.order);
    forall key
      ensures (key in s.open <==> LayersOf(s, key) != []) && (key in s.open <==> key in s.order)
    {
      assert Indexed(c, s, key);
    }
    CloseKeysSends(s, keys);
    forall key
      ensures LayersOf(ClosePass(s, pass), key) == if key in keys then [] else LayersOf(s, key)
    {
      CloseKeysLeaves(s, keys, key);
    }
    CloseKeysLeaves(s, keys, GroupKey(0, ByTime));
    hide Shaped, Known, ClosePass, Precedes, AllMessages;
    forall i, j | 0 <= i < j < |keys|
      ensures NotAfter(s, pass, keys[i], keys[j])
              && (NotAfter(s, pass, keys[j], keys[i]) ==> Precedes(s.order, keys[i], keys[j]))
    {
    }
    assert forall key | key in keys :: LayersOf(s, key) != [];
  }

  // ---- every run ----

  lemma {:induction false} RunKnown(c: Config, events: seq<Event>)
    requires Feasible(c, events)
    ensures Known(Run(c, events)) && Timed(c, Run(c, events))
  {
    RunTimed(c, events);
    if events != [] {
      var front, last := events[..|events| - 1], events[|events| - 1];
      RunKnown(c, front);
      RunStep(c, events);
      hide Run, Known, Shaped, Timed;
      var s := Run(c, front);
      match last
      case Offer(piece, now) => AddExactly(c, s, piece, now);
      case Publish(pass) => var _ := PassPublishes(c, s, pass);
    }
  }
}
