/**
 * What every run of the batcher keeps: no reading is lost or repeated, the times of messages, and
 * which messages each pass leaves open.
 */
module BatchRuns {
  import opened Batch

  // ---- every reading is in one message ----

  function Stamps(key: GroupKey, time: int, pieces: seq<Piece>): multiset<Accepted> {
    if pieces == [] then multiset{}
    else Stamps(key, time, pieces[..|pieces| - 1]) + multiset{Accepted(key, pieces[|pieces| - 1], time)}
  }

  function Held(key: GroupKey, layers: seq<Layer>): multiset<Accepted> {
    if layers == [] then multiset{}
    else
      var l := layers[|layers| - 1];
      Held(key, layers[..|layers| - 1]) + Stamps(key, l.time, l.pieces)
  }

  /** The readings in published messages. */
  function Published(out: seq<Message>): multiset<Accepted> {
    if out == [] then multiset{}
    else
      var m := out[|out| - 1];
      Published(out[..|out| - 1]) + Stamps(m.key, m.time, m.pieces)
  }

  ghost predicate BalancedFor(s: State, a: Accepted) {
    Published(s.out)[a] + Held(a.key, LayersOf(s, a.key))[a] == multiset(s.log)[a]
  }

  /** What was taken in is published or still open, each reading once. */
  ghost predicate Balanced(s: State) {
    forall a :: BalancedFor(s, a)
  }

  lemma {:induction false} StampsKeyed(key: GroupKey, time: int, pieces: seq<Piece>, a: Accepted)
    requires a.key != key
    ensures Stamps(key, time, pieces)[a] == 0
    decreases |pieces|
  {
    if pieces != [] {
      StampsKeyed(key, time, pieces[..|pieces| - 1], a);
    }
  }

  lemma {:induction false} PublishedAppend(out: seq<Message>, more: seq<Message>, a: Accepted)
    ensures Published(out + more)[a] == Published(out)[a] + Published(more)[a]
    decreases |more|
  {
    hide Stamps;
    if more == [] {
      assert out + more == out;
    } else {
      var front := more[..|more| - 1];
      PublishedAppend(out, front, a);
      assert (out + more)[..|out + more| - 1] == out + front;
    }
  }

  lemma PublishedOne(m: Message, a: Accepted)
    ensures Published([m])[a] == Stamps(m.key, m.time, m.pieces)[a]
  {
    hide Stamps;
    assert [m][..|[m]| - 1] == [];
  }

  lemma {:induction false} SentIsHeld(key: GroupKey, layers: seq<Layer>, a: Accepted)
    ensures Published(Sent(key, layers))[a] == if a.key == key then Held(key, layers)[a] else 0
    decreases |layers|
  {
    if layers != [] {
      var front, l := layers[..|layers| - 1], layers[|layers| - 1];
      SentIsHeld(key, front, a);
      var m := Message(key, l.time, l.pieces);
      PublishedAppend(Sent(key, front), [m], a);
      PublishedOne(m, a);
      NoStamps(key, l.time);
      if a.key != key {
        StampsKeyed(key, l.time, l.pieces, a);
      }
      hide Stamps;
      assert l.pieces == [] ==> Sent(key, layers) == Sent(key, front);
    }
  }

  lemma CloseBalanced(s: State, key: GroupKey)
    requires Balanced(s)
    ensures Balanced(Close(s, key))
  {
    var after := Close(s, key);
    forall a
      ensures BalancedFor(after, a)
    {
      assert BalancedFor(s, a);
      if key in s.open {
        PublishedAppend(s.out, Sent(key, s.open[key]), a);
        SentIsHeld(key, s.open[key], a);
        assert LayersOf(after, a.key) == if a.key == key then [] else LayersOf(s, a.key);
      }
    }
  }

  lemma {:induction false} CloseKeysBalanced(s: State, keys: seq<GroupKey>)
    requires Balanced(s)
    ensures Balanced(CloseKeys(s, keys))
  {
    hide Balanced, Close;
    if keys != [] {
      CloseKeysBalanced(s, keys[..|keys| - 1]);
      CloseBalanced(CloseKeys(s, keys[..|keys| - 1]), keys[|keys| - 1]);
    }
  }

  lemma OpenLayerBalanced(s: State, key: GroupKey, ts: int, since: int)
    requires Balanced(s)
    ensures Balanced(OpenLayer(s, key, ts, since))
  {
    var after := OpenLayer(s, key, ts, since);
    forall a
      ensures BalancedFor(after, a)
    {
      assert BalancedFor(s, a);
      var layers := LayersOf(after, key);
      assert layers[..|layers| - 1] == LayersOf(s, key);
      assert a.key != key ==> LayersOf(after, a.key) == LayersOf(s, a.key);
    }
  }

  lemma {:induction false} HeldUpdate(key: GroupKey, layers: seq<Layer>, i: nat, l: Layer, a: Accepted)
    requires i < |layers|
    ensures Held(key, layers[i := l])[a] + Stamps(key, layers[i].time, layers[i].pieces)[a]
            == Held(key, layers)[a] + Stamps(key, l.time, l.pieces)[a]
    decreases |layers|
  {
    hide Stamps;
    var n := |layers| - 1;
    if i == n {
      assert layers[i := l][..n] == layers[..n];
    } else {
      HeldUpdate(key, layers[..n], i, l, a);
      assert layers[i := l][..n] == layers[..n][i := l];
    }
  }

  lemma StampsAppend(key: GroupKey, time: int, pieces: seq<Piece>, piece: Piece)
    ensures Stamps(key, time, pieces + [piece]) == Stamps(key, time, pieces) + multiset{Accepted(key, piece, time)}
  {
    assert (pieces + [piece])[..|pieces + [piece]| - 1] == pieces;
  }

  lemma NoStamps(key: GroupKey, time: int)
    ensures Stamps(key, time, []) == multiset{}
  {
  }

  /** The new piece is held, and the layer's former body unless that was published. */
  lemma PutHolds(c: Config, s: State, key: GroupKey, i: nat, piece: Piece, a: Accepted)
    requires i < |LayersOf(s, key)| && piece.point < |s.depth|
    ensures var layer := LayersOf(s, key)[i];
            var former := Stamps(key, layer.time, layer.pieces)[a];
            (if Overflows(c, key.topic, layer.pieces, piece) then former else 0)
            + Held(key, LayersOf(Put(c, s, key, i, piece), key))[a]
            == Held(key, LayersOf(s, key))[a] + multiset{Accepted(key, piece, layer.time)}[a]
  {
    hide Overflows, Held, Stamps;
    var layers, after := LayersOf(s, key), LayersOf(Put(c, s, key, i, piece), key);
    var layer := layers[i];
    HeldUpdate(key, layers, i, after[i], a);
    StampsAppend(key, layer.time, if Overflows(c, key.topic, layer.pieces, piece) then [] else layer.pieces, piece);
    NoStamps(key, layer.time);
  }

  lemma PutBalanced(c: Config, s: State, key: GroupKey, i: nat, piece: Piece)
    requires Balanced(s) && i < |LayersOf(s, key)| && piece.point < |s.depth|
    ensures Balanced(Put(c, s, key, i, piece))
  {
    hide Overflows, Held, Stamps, Published;
    var after, layer := Put(c, s, key, i, piece), LayersOf(s, key)[i];
    forall a
      ensures BalancedFor(after, a)
    {
      assert BalancedFor(s, a);
      assert multiset(after.log)[a] == multiset(s.log)[a] + multiset{Accepted(key, piece, layer.time)}[a];
      var m := Message(key, layer.time, layer.pieces);
      PublishedAppend(s.out, [m], a);
      PublishedOne(m, a);
      if a.key == key {
        PutHolds(c, s, key, i, piece, a);
      } else {
        StampsKeyed(key, layer.time, layer.pieces, a);
        assert LayersOf(after, a.key) == LayersOf(s, a.key);
      }
    }
  }

  lemma ReadyBalanced(c: Config, s: State, piece: Piece, now: int)
    requires piece.point < |c.keys| && |s.depth| == |c.keys| && Balanced(s)
    ensures Balanced(Ready(c, s, piece, now))
  {
    hide Balanced, OpenLayer;
    var key := c.keys[piece.point];
    CloseBalanced(s, key);
    hide Close;
    OpenLayerBalanced(Closing(c, s, piece, now), key, piece.ts,
        MustClose(s, key, s.depth[piece.point], piece.ts, now).1);
  }

  lemma StepBalanced(c: Config, s: State, e: Event)
    requires Shaped(c, s) && (e.Offer? ==> Batched(c, e.piece.point)) && Balanced(s)
    ensures Balanced(Step(c, s, e))
  {
    hide Balanced, Ready, Put, Close, Indexed, Sized, SentFit;
    match e
    case Offer(piece, now) =>
      ReadyShaped(c, s, piece, now);
      ReadyBalanced(c, s, piece, now);
      var ready := Ready(c, s, piece, now);
      PutBalanced(c, ready, c.keys[piece.point], ready.depth[piece.point], piece);
    case Publish(pass) => CloseKeysBalanced(s, Chosen(s, pass, s.order));
  }

  lemma {:induction false} RunBalanced(c: Config, events: seq<Event>)
    requires Feasible(c, events)
    ensures Balanced(Run(c, events))
  {
    hide Step, Shaped, Balanced;
    if events == [] {
      FreshBalanced(c);
    } else {
      var front, last := events[..|events| - 1], events[|events| - 1];
      RunBalanced(c, front);
      StepBalanced(c, Run(c, front), last);
    }
  }

  lemma FreshBalanced(c: Config)
    ensures Balanced(Fresh(c))
  {
    forall a
      ensures BalancedFor(Fresh(c), a)
    {
    }
  }

  // ---- the times of messages ----

  /** A frame's layers have rising times, the last of them the key's latest. */
  ghost predicate LayersRise(s: State, key: GroupKey) {
    var layers := LayersOf(s, key);
    key.grouping.ByFrame? ==>
      && (forall i, j | 0 <= i < j < |layers| :: layers[i].time < layers[j].time)
      && (layers != [] ==> key in s.lastLayer && s.lastLayer[key] == layers[|layers| - 1].time)
  }

  /** No value of a point at this depth has a later time. */
  function Ceiling(s: State, key: GroupKey, depth: nat): int {
    var layers := LayersOf(s, key);
    if 0 < depth <= |layers| then layers[depth - 1].time
    else if layers != [] then layers[0].time - 1
    else if key in s.lastLayer then s.lastLayer[key]
    else 0
  }

  ghost predicate Timely(c: Config, s: State, a: Accepted)
    requires |s.depth| == |c.keys|
  {
    && a.piece.point < |c.keys| && a.key == c.keys[a.piece.point]
    && (a.key.grouping.ByTime? ==> a.time == a.piece.ts)
    && (a.key.grouping.ByFrame? ==> a.key in s.lastLayer && a.time <= Ceiling(s, a.key, s.depth[a.piece.point]))
  }

  /** Successive values of a point in frames have rising message times. */
  ghost predicate PointsRise(log: seq<Accepted>) {
    forall i, j | 0 <= i < j < |log| && log[i].piece.point == log[j].piece.point && log[j].key.grouping.ByFrame? ::
      log[i].time < log[j].time
  }

  ghost predicate Timed(c: Config, s: State) {
    |s.depth| == |c.keys| && PointsRise(s.log) && (forall key :: LayersRise(s, key))
        && forall a | a in s.log :: Timely(c, s, a)
  }

  lemma CloseTimed(c: Config, s: State, key: GroupKey)
    requires Shaped(c, s) && Timed(c, s)
    ensures Timed(c, Close(s, key))
  {
    var after := Close(s, key);
    CloseShaped(c, s, key);
    forall other
      ensures LayersRise(after, other)
    {
      assert LayersRise(s, other);
    }
    forall a | a in s.log
      ensures Timely(c, after, a)
    {
      assert Timely(c, s, a) && LayersRise(s, a.key);
      CloseDepth(c, s, key, a.piece.point);
    }
  }

  lemma {:induction false} CloseKeysTimed(c: Config, s: State, keys: seq<GroupKey>)
    requires Shaped(c, s) && Timed(c, s)
    ensures Timed(c, CloseKeys(s, keys))
  {
    hide Shaped, Timed, Close;
    if keys != [] {
      CloseKeysShaped(c, s, keys[..|keys| - 1]);
      CloseKeysTimed(c, s, keys[..|keys| - 1]);
      CloseTimed(c, CloseKeys(s, keys[..|keys| - 1]), keys[|keys| - 1]);
    }
  }

  lemma OpenLayerTimed(c: Config, s: State, key: GroupKey, ts: int, since: int)
    requires Shaped(c, s) && Timed(c, s)
    ensures Timed(c, OpenLayer(s, key, ts, since))
  {
    var after := OpenLayer(s, key, ts, since);
    forall other
      ensures LayersRise(after, other)
    {
      assert LayersRise(s, other);
    }
    forall a | a in s.log
      ensures Timely(c, after, a)
    {
      assert Timely(c, s, a) && LayersRise(s, a.key) && Indexed(c, s, a.key);
    }
  }

  lemma ReadyTimed(c: Config, s: State, piece: Piece, now: int)
    requires Shaped(c, s) && Timed(c, s) && Batched(c, piece.point)
    ensures Timed(c, Ready(c, s, piece, now))
    ensures var key := c.keys[piece.point]; var layers := LayersOf(Ready(c, s, piece, now), key);
            key.grouping.ByTime? ==> |layers| == 1 && layers[0].time == piece.ts
  {
    hide Sized, SentFit, Timed;
    var key := c.keys[piece.point];
    ReadyShaped(c, s, piece, now);
    CloseShaped(c, s, key);
    CloseTimed(c, s, key);
    var closed := Closing(c, s, piece, now);
    hide Close;
    OpenLayerTimed(c, closed, key, piece.ts, MustClose(s, key, s.depth[piece.point], piece.ts, now).1);
    assert Indexed(c, Ready(c, s, piece, now), key) && Indexed(c, closed, key) && Indexed(c, s, key);
  }

  lemma PutTimed(c: Config, s: State, piece: Piece)
    requires Shaped(c, s) && Timed(c, s) && Batched(c, piece.point)
    requires var key := c.keys[piece.point]; var layers := LayersOf(s, key);
             && s.depth[piece.point] < |layers|
             && (key.grouping.ByTime? ==> layers[s.depth[piece.point]].time == piece.ts)
    ensures Timed(c, Put(c, s, c.keys[piece.point], s.depth[piece.point], piece))
  {
    hide Overflows, Sized, SentFit;
    var key, i := c.keys[piece.point], s.depth[piece.point];
    var after := Put(c, s, key, i, piece);
    assert LayersRise(s, key);
    forall other
      ensures LayersRise(after, other)
    {
      assert LayersRise(s, other);
    }
    forall a | a in s.log
      ensures Timely(c, after, a)
              && (a.piece.point == piece.point && key.grouping.ByFrame? ==> a.time < LayersOf(s, key)[i].time)
    {
      assert Timely(c, s, a) && Indexed(c, s, a.key);
      assert forall other, d :: Ceiling(after, other, d) == Ceiling(s, other, d) by { PutCeiling(c, s, key, i, piece); }
    }
  }

  lemma PutCeiling(c: Config, s: State, key: GroupKey, i: nat, piece: Piece)
    requires i < |LayersOf(s, key)| && piece.point < |s.depth|
    ensures forall other, d :: Ceiling(Put(c, s, key, i, piece), other, d) == Ceiling(s, other, d)
  {
    hide Overflows;
  }

  lemma StepTimed(c: Config, s: State, e: Event)
    requires Shaped(c, s) && (e.Offer? ==> Batched(c, e.piece.point)) && Timed(c, s)
    ensures Timed(c, Step(c, s, e))
  {
    hide Timed, Ready, Put, Close, Indexed, Sized, SentFit;
    match e
    case Offer(piece, now) =>
      ReadyShaped(c, s, piece, now);
      ReadyTimed(c, s, piece, now);
      PutTimed(c, Ready(c, s, piece, now), piece);
    case Publish(pass) => CloseKeysTimed(c, s, Chosen(s, pass, s.order));
  }

  lemma {:induction false} RunTimed(c: Config, events: seq<Event>)
    requires Feasible(c, events)
    ensures Timed(c, Run(c, events))
  {
    hide Step, Shaped;
    if events != [] {
      var front, last := events[..|events| - 1], events[|events| - 1];
      RunTimed(c, front);
      StepTimed(c, Run(c, front), last);
    }
  }

  // ---- which messages a pass leaves open ----

  lemma {:induction false} CloseKeysLeaves(s: State, keys: seq<GroupKey>, key: GroupKey)
    ensures LayersOf(CloseKeys(s, keys), key) == if key in keys then [] else LayersOf(s, key)
    ensures key in CloseKeys(s, keys).open <==> key in s.open && key !in keys
    ensures CloseKeys(s, keys).log == s.log
    decreases |keys|
  {
    if keys != [] {
      var front, last := keys[..|keys| - 1], keys[|keys| - 1];
      assert keys == front + [last];
      CloseKeysLeaves(s, front, key);
    }
  }

  /** A pass publishes exactly the messages it is for, and leaves the others as they were. */
  lemma PassLeaves(c: Config, s: State, pass: Pass, key: GroupKey)
    requires Shaped(c, s)
    ensures var after := ClosePass(s, pass);
            && LayersOf(after, key) == (if Selected(s, pass, key) then [] else LayersOf(s, key))
            && (key in after.open ==> !Selected(after, pass, key))
  {
    CloseKeysLeaves(s, Chosen(s, pass, s.order), key);
    assert Indexed(c, s, key);
  }

  ghost predicate InOrder(s: State, pass: Pass, keys: seq<GroupKey>) {
    forall i, j | 0 <= i < j < |keys| :: NotAfter(s, pass, keys[i], keys[j])
  }

  lemma {:induction false} InsertInOrder(s: State, pass: Pass, keys: seq<GroupKey>, key: GroupKey)
    requires InOrder(s, pass, keys)
    ensures InOrder(s, pass, Insert(s, pass, keys, key))
    decreases |keys|
  {
    if keys != [] {
      var front, last := keys[..|keys| - 1], keys[|keys| - 1];
      if NotAfter(s, pass, last, key) {
        assert forall i | 0 <= i < |keys| - 1 :: NotAfter(s, pass, keys[i], last);
      } else {
        InsertInOrder(s, pass, front, key);
        var r := Insert(s, pass, front, key);
        forall i | 0 <= i < |r|
          ensures NotAfter(s, pass, r[i], last)
        {
          assert r[i] in r;
          assert forall x | x in front :: NotAfter(s, pass, x, last);
        }
      }
    }
  }

  /** A pass publishes by topic, and ended frames first by the start of their window. */
  lemma {:induction false} ChosenInOrder(s: State, pass: Pass, order: seq<GroupKey>)
    ensures InOrder(s, pass, Chosen(s, pass, order))
    decreases |order|
  {
    if order != [] {
      ChosenInOrder(s, pass, order[..|order| - 1]);
      InsertInOrder(s, pass, Chosen(s, pass, order[..|order| - 1]), order[|order| - 1]);
    }
  }

  // ---- the whole run ----

  /** The readings offered in a run, in order. */
  function Offered(events: seq<Event>): seq<Piece> {
    if events == [] then []
    else
      var e := events[|events| - 1];
      Offered(events[..|events| - 1]) + (if e.Offer? then [e.piece] else [])
  }

  function Pieces(log: seq<Accepted>): (r: seq<Piece>)
    ensures |r| == |log|
  {
    seq(|log|, i requires 0 <= i < |log| => log[i].piece)
  }

  lemma {:induction false} RunLogs(c: Config, events: seq<Event>)
    requires Feasible(c, events)
    ensures Pieces(Run(c, events).log) == Offered(events)
  {
    if events != [] {
      var front, last := events[..|events| - 1], events[|events| - 1];
      RunLogs(c, front);
      hide Run, Shaped;
      var s := Run(c, front);
      StepLogs(c, s, last);
      assert Run(c, events) == Step(c, s, last) by { RunStep(c, events); }
    }
  }

  lemma RunStep(c: Config, events: seq<Event>)
    requires Feasible(c, events) && events != []
    ensures Run(c, events) == Step(c, Run(c, events[..|events| - 1]), events[|events| - 1])
  {
  }

  lemma StepLogs(c: Config, s: State, e: Event)
    requires Shaped(c, s) && (e.Offer? ==> Batched(c, e.piece.point))
    ensures Pieces(Step(c, s, e).log) == Pieces(s.log) + (if e.Offer? then [e.piece] else [])
  {
    match e
    case Offer(piece, now) =>
    case Publish(pass) => CloseKeysLeaves(s, Chosen(s, pass, s.order), GroupKey(0, ByTime));
  }

  /**
   * After a flush every reading ever taken in is in exactly one published message: the readings
   * are the offered ones, with multiplicity, each in a message of its own point's topic and grouping.
   * A `time` message has the timestamp of its readings; in frames a point's message times rise.
   */
  lemma EveryReadingIsPublishedOnce(c: Config, events: seq<Event>)
    requires Feasible(c, events)
    ensures Feasible(c, events + [Publish(FlushAll)])
    ensures var s := Run(c, events + [Publish(FlushAll)]);
            && s.open == map[]
            && Published(s.out) == multiset(s.log)
            && Pieces(s.log) == Offered(events)
            && (forall a | a in s.log :: a.piece.point < |c.keys| && a.key == c.keys[a.piece.point])
            && (forall a | a in s.log && a.key.grouping.ByTime? :: a.time == a.piece.ts)
            && PointsRise(s.log)
  {
    var all := events + [Publish(FlushAll)];
    assert all[..|all| - 1] == events;
    hide Shaped, Chosen, CloseKeys, Timely, LayersRise;
    var before, s := Run(c, events), Run(c, all);
    RunLogs(c, all);
    RunBalanced(c, all);
    RunTimed(c, all);
    forall a | a in s.log
      ensures a.piece.point < |c.keys| && a.key == c.keys[a.piece.point]
              && (a.key.grouping.ByTime? ==> a.time == a.piece.ts)
    {
      TimelyIs(c, s, a);
    }
    assert s == ClosePass(before, FlushAll);
    FlushLeavesNothing(c, before);
    hide Run;
    forall a
      ensures Published(s.out)[a] == multiset(s.log)[a]
    {
      assert BalancedFor(s, a);
    }
  }

  lemma TimelyIs(c: Config, s: State, a: Accepted)
    requires |s.depth| == |c.keys| && Timely(c, s, a)
    ensures a.piece.point < |c.keys| && a.key == c.keys[a.piece.point]
            && (a.key.grouping.ByTime? ==> a.time == a.piece.ts)
  {
  }

  lemma FlushLeavesNothing(c: Config, s: State)
    requires Shaped(c, s)
    ensures ClosePass(s, FlushAll).open == map[]
  {
    forall key
      ensures key !in ClosePass(s, FlushAll).open
    {
      PassLeaves(c, s, FlushAll, key);
    }
  }
}
